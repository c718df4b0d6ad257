/**
  The helpers of the TFLite export script that compute values rather than
  call into TensorFlow: the name-to-index mapping, the lines of the
  BERT-style vocabulary file, and the recognition of the model's input
  tensor names.
 */
module TfliteExport {
  import opened Wrappers
  import opened Strings
  import opened SeqStats

  /** The class labels, in class-index order. */
  const RiskLabels: seq<string> := ["green", "yellow", "red"]

  /** `xs.index(x)` when `x in xs`. */
  function IndexOf(xs: seq<string>, x: string): (r: Option<nat>)
    ensures r.Some? ==> r.value < |xs| && xs[r.value] == x && forall j :: 0 <= j < r.value ==> xs[j] != x
    ensures r.None? <==> x !in xs
    decreases |xs|
  {
    if |xs| == 0 then None
    else if xs[0] == x then Some(0)
    else
      match IndexOf(xs[1..], x)
      case Some(k) => Some(k + 1)
      case None => None
  }

  /** `risk_to_id`: the index of the stripped, lower-cased name; 0 (green) for anything else. */
  function RiskToId(risk: string): (id: nat)
    ensures id < |RiskLabels|
    ensures Lower(Strip(risk)) in RiskLabels ==> RiskLabels[id] == Lower(Strip(risk))
    ensures Lower(Strip(risk)) !in RiskLabels ==> id == 0
  {
    IndexOf(RiskLabels, Lower(Strip(risk))).GetOr(0)
  }

  /**
    Each name maps back to its own index however it is capitalised and
    whatever whitespace surrounds it.
   */
  lemma RiskToIdPadded(pre: string, u: string, post: string, i: nat)
    requires i < |RiskLabels| && Lower(u) == RiskLabels[i]
    requires forall k :: 0 <= k < |pre| ==> IsSpace(pre[k])
    requires forall k :: 0 <= k < |post| ==> IsSpace(post[k])
    ensures RiskToId(pre + u + post) == i
  {
    var name := RiskLabels[i];
    assert name[0] in "gyr" && name[|name| - 1] in "nwd";
    assert LowerChar(u[0]) == name[0] && LowerChar(u[|u| - 1]) == name[|name| - 1];
    StripPadded(pre, u, post, IsSpace);
    assert RiskLabels[RiskToId(pre + u + post)] == name;
  }

  // ---------------------------------------------------------------- vocab.txt

  const DefaultVocabSize: nat := 30522

  /** `getattr(tokenizer, "vocab_size", 30522) or 30522`. */
  function DefaultSize(vocabSize: Option<nat>): (n: nat)
    ensures n > 0
    ensures vocabSize.Some? && vocabSize.value > 0 ==> n == vocabSize.value
    ensures vocabSize.None? || vocabSize.value == 0 ==> n == DefaultVocabSize
  {
    if vocabSize.None? || vocabSize.value == 0 then DefaultVocabSize else vocabSize.value
  }

  /** The largest id of a non-empty vocabulary. */
  function MaxId(entries: seq<(string, nat)>): (m: nat)
    requires |entries| > 0
    ensures forall j :: 0 <= j < |entries| ==> entries[j].1 <= m
    ensures exists j :: 0 <= j < |entries| && entries[j].1 == m
    decreases |entries|
  {
    var last := entries[|entries| - 1].1;
    if |entries| == 1 then last
    else
      var m := MaxId(entries[..|entries| - 1]);
      if last > m then last else m
  }

  /** The number of lines: the declared size, grown to cover the largest id. */
  function VocabSize(entries: seq<(string, nat)>, vocabSize: Option<nat>): nat {
    if |entries| == 0 then DefaultSize(vocabSize)
    else if MaxId(entries) + 1 > DefaultSize(vocabSize) then MaxId(entries) + 1
    else DefaultSize(vocabSize)
  }

  /** `{v: k for k, v in vocab_dict.items()}`: a later token overwrites an earlier one with the same id. */
  function IdToToken(entries: seq<(string, nat)>): map<nat, string>
    decreases |entries|
  {
    if |entries| == 0 then map[]
    else
      var last := entries[|entries| - 1];
      IdToToken(entries[..|entries| - 1])[last.1 := last.0]
  }

  /** The filler of an id no token has. */
  function UnusedToken(i: nat): string {
    "[unused" + NatToString(i) + "]"
  }

  /** The lines `_write_vocab_txt` writes, for the vocabulary items in iteration order. */
  function VocabLines(entries: seq<(string, nat)>, vocabSize: Option<nat>): (lines: seq<string>)
    ensures |lines| >= DefaultSize(vocabSize)
    ensures forall j :: 0 <= j < |entries| ==> entries[j].1 < |lines|
  {
    var m := IdToToken(entries);
    seq(VocabSize(entries, vocabSize), i requires 0 <= i => if i in m then m[i] else UnusedToken(i))
  }

  /** `j` is the last vocabulary item with id `i`. */
  predicate LastWithId(entries: seq<(string, nat)>, i: nat, j: nat) {
    j < |entries| && entries[j].1 == i && forall k :: j < k < |entries| ==> entries[k].1 != i
  }

  /** An id maps to the token of its last item, and only ids of items are mapped. */
  lemma {:induction false} IdToTokenSpec(entries: seq<(string, nat)>)
    ensures forall i: nat, j: nat :: LastWithId(entries, i, j) ==> i in IdToToken(entries) && IdToToken(entries)[i] == entries[j].0
    ensures forall i :: i in IdToToken(entries) ==> exists j :: 0 <= j < |entries| && entries[j].1 == i
    decreases |entries|
  {
    if |entries| > 0 {
      var n := |entries| - 1;
      var init := entries[..n];
      IdToTokenSpec(init);
      forall i: nat, j: nat | LastWithId(entries, i, j) ensures i in IdToToken(entries) && IdToToken(entries)[i] == entries[j].0 {
        if j < n {
          assert LastWithId(init, i, j);
        }
      }
      forall i | i in IdToToken(entries) ensures exists j :: 0 <= j < |entries| && entries[j].1 == i {
        if i != entries[n].1 {
          var j :| 0 <= j < |init| && init[j].1 == i;
          assert entries[j].1 == i;
        }
      }
    }
  }

  /**
    The vocabulary file has at least the declared number of lines (exactly
    that many for an empty vocabulary) and a line for every id; line `i` is the token of the last item with id `i`, or the
    `[unused{i}]` filler when no item has that id.
   */
  lemma VocabLinesSpec(entries: seq<(string, nat)>, vocabSize: Option<nat>)
    ensures |VocabLines(entries, vocabSize)| >= DefaultSize(vocabSize)
    ensures forall j :: 0 <= j < |entries| ==> entries[j].1 < |VocabLines(entries, vocabSize)|
    ensures |entries| == 0 ==> |VocabLines(entries, vocabSize)| == DefaultSize(vocabSize)
    ensures |entries| > 0 ==> |VocabLines(entries, vocabSize)| == if MaxId(entries) + 1 > DefaultSize(vocabSize) then MaxId(entries) + 1 else DefaultSize(vocabSize)
    ensures forall i: nat, j: nat :: LastWithId(entries, i, j) ==> VocabLines(entries, vocabSize)[i] == entries[j].0
    ensures forall i ::
      (0 <= i < |VocabLines(entries, vocabSize)| && forall j :: 0 <= j < |entries| ==> entries[j].1 != i)
      ==> VocabLines(entries, vocabSize)[i] == UnusedToken(i)
  {
    IdToTokenSpec(entries);
  }

  // ---------------------------------------------------------------- input names

  /** The three inputs a MediaPipe text classifier expects. */
  datatype Role = IdsRole | MaskRole | SegmentRole

  /** The role a tensor name is recognised as, by case-insensitive substring. */
  function RoleOf(name: string): (r: Option<Role>)
    ensures r.Some? <==> Contains(Lower(name), "ids") || Contains(Lower(name), "mask") || Contains(Lower(name), "segment")
  {
    var n := Lower(name);
    if Contains(n, "ids") && !Contains(n, "segment") && !Contains(n, "mask") then Some(IdsRole)
    else if Contains(n, "mask") then Some(MaskRole)
    else if Contains(n, "segment") then Some(SegmentRole)
    else None
  }

  /**
    The recognition as conditions on each role: any name mentioning `mask`
    is the mask, a name mentioning `segment` but not `mask` is the segment,
    and a name mentioning `ids` and neither of the others is the ids.
   */
  lemma RoleOfSpec(name: string)
    ensures RoleOf(name) == Some(IdsRole) <==>
      Contains(Lower(name), "ids") && !Contains(Lower(name), "segment") && !Contains(Lower(name), "mask")
    ensures RoleOf(name) == Some(MaskRole) <==> Contains(Lower(name), "mask")
    ensures RoleOf(name) == Some(SegmentRole) <==> Contains(Lower(name), "segment") && !Contains(Lower(name), "mask")
  {
  }

  /** Classified as `role`. */
  function HasRole<T>(classify: T -> Option<Role>, role: Role): T -> bool {
    x => classify(x) == Some(role)
  }

  /** The last name recognised as `role` (`by_key[role]` after the loop). */
  function LastWithRole(names: seq<string>, role: Role): Option<string> {
    LastWhere(names, HasRole(RoleOf, role))
  }

  const IdsName: string := "ids"
  const MaskName: string := "mask"
  const SegmentIdsName: string := "segment_ids"

  /** The name used for a role: the recognised one, else the name at the role's position, else the constant. */
  function Chosen(names: seq<string>, role: Role, position: nat, fallback: string): string {
    match LastWithRole(names, role)
    case Some(n) => n
    case None => if |names| > position then names[position] else fallback
  }

  /** One more item moves the last item of its own class only. */
  lemma ScanStep<T>(pre: seq<T>, x: T, classify: T -> Option<Role>)
    ensures forall r ::
      LastWhere(pre + [x], HasRole(classify, r)) == if classify(x) == Some(r) then Some(x) else LastWhere(pre, HasRole(classify, r))
  {
    forall r ensures LastWhere(pre + [x], HasRole(classify, r))
      == if classify(x) == Some(r) then Some(x) else LastWhere(pre, HasRole(classify, r)) {
      LastWhereSnoc(pre, x, HasRole(classify, r));
    }
  }

  /**
    The loop of `_get_tflite_input_names`, over any classification of the
    names: the last name classified for each role.
   */
  method ScanRoles<T>(ns: seq<T>, classify: T -> Option<Role>) returns (byIds: Option<T>, byMask: Option<T>, bySegment: Option<T>)
    ensures byIds == LastWhere(ns, HasRole(classify, IdsRole))
    ensures byMask == LastWhere(ns, HasRole(classify, MaskRole))
    ensures bySegment == LastWhere(ns, HasRole(classify, SegmentRole))
  {
    byIds, byMask, bySegment := None, None, None;
    for i := 0 to |ns|
      invariant byIds == LastWhere(ns[..i], HasRole(classify, IdsRole))
      invariant byMask == LastWhere(ns[..i], HasRole(classify, MaskRole))
      invariant bySegment == LastWhere(ns[..i], HasRole(classify, SegmentRole))
    {
      var n := ns[i];
      var role := classify(n);
      ScanStep(ns[..i], n, classify);
      assert ns[..i + 1] == ns[..i] + [n];
      if role == Some(IdsRole) {
        byIds := Some(n);
      } else if role == Some(MaskRole) {
        byMask := Some(n);
      } else if role == Some(SegmentRole) {
        bySegment := Some(n);
      }
    }
    assert ns[..|ns|] == ns;
  }

  /**
    `_get_tflite_input_names`. `names` is `None` when the metadata library
    cannot be imported; otherwise it holds the model's input tensor names.
   */
  method GetTfliteInputNames(names: Option<seq<string>>) returns (ids: string, mask: string, segment: string)
    ensures names.None? ==> ids == IdsName && mask == MaskName && segment == SegmentIdsName
    ensures names.Some? ==> ids == Chosen(names.value, IdsRole, 0, IdsName)
    ensures names.Some? ==> mask == Chosen(names.value, MaskRole, 1, MaskName)
    ensures names.Some? ==> segment == Chosen(names.value, SegmentRole, 2, SegmentIdsName)
  {
    if names.None? {
      return IdsName, MaskName, SegmentIdsName;
    }
    var ns := names.value;
    var byIds, byMask, bySegment := ScanRoles(ns, RoleOf);
    ids := if byIds.Some? then byIds.value else if |ns| > 0 then ns[0] else IdsName;
    mask := if byMask.Some? then byMask.value else if |ns| > 1 then ns[1] else MaskName;
    segment := if bySegment.Some? then bySegment.value else if |ns| > 2 then ns[2] else SegmentIdsName;
  }

  /** A name is recognised for at most one role, so an explicit name is never chosen for two roles by recognition. */
  lemma RolesDistinct(names: seq<string>)
    ensures LastWithRole(names, IdsRole).Some? && LastWithRole(names, MaskRole).Some? ==>
      LastWithRole(names, IdsRole).value != LastWithRole(names, MaskRole).value
  {
    LastWhereSpec(names, HasRole(RoleOf, IdsRole));
    LastWhereSpec(names, HasRole(RoleOf, MaskRole));
  }
}
