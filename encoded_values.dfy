/**
  The device exports its readings as encoded strings such as
  `+ACIAIg-steps+ACIAIg-:2276`, where `+AF8-` and `+ACIAIg-` are the UTF-7
  spellings of `_` and `""`. The scripts never decode them: every pattern they
  use is a literal key followed by `(\d+)`, so a search is "find the leftmost
  occurrence of the key that is immediately followed by a digit, then read the
  maximal run of digits".
 */
module EncodedValues {
  import opened Wrappers
  import opened Strings

  /** The pattern `key(\d+)` matches at position `i` of `s`. */
  predicate MatchAt(s: string, key: string, i: int) {
    OccursAt(s, key, i) && i + |key| < |s| && IsDigit(s[i + |key|])
  }

  /** `i` is where `re.search(key + r"(\d+)", s)` finds its match. */
  ghost predicate IsFirstMatch(s: string, key: string, i: int) {
    MatchAt(s, key, i) && forall j :: 0 <= j < i ==> !MatchAt(s, key, j)
  }

  ghost predicate NoMatch(s: string, key: string) {
    forall j :: 0 <= j ==> !MatchAt(s, key, j)
  }

  function FirstMatchFrom(s: string, key: string, i: nat): (r: Option<nat>)
    ensures r.Some? ==> i <= r.value && MatchAt(s, key, r.value)
    ensures r.Some? ==> forall j :: i <= j < r.value ==> !MatchAt(s, key, j)
    ensures r.None? ==> forall j :: i <= j ==> !MatchAt(s, key, j)
    decreases |s| - i
  {
    if i >= |s| then None
    else if MatchAt(s, key, i) then Some(i)
    else FirstMatchFrom(s, key, i + 1)
  }

  /** The number captured by `re.search(key + r"(\d+)", s)`, or None when there is no match. */
  function NumberAfter(s: string, key: string): (r: Option<nat>)
    ensures r.None? <==> NoMatch(s, key)
    ensures forall i :: IsFirstMatch(s, key, i) ==> r == Some(DigitsValue(DigitRun(s, i + |key|)))
  {
    var m := FirstMatchFrom(s, key, 0);
    FirstMatchIsUnique(s, key, m);
    if m.None? then None else Some(DigitsValue(DigitRun(s, m.value + |key|)))
  }

  /** The scan from 0 finds the one first match, and finds nothing exactly when there is no match. */
  lemma FirstMatchIsUnique(s: string, key: string, m: Option<nat>)
    requires m == FirstMatchFrom(s, key, 0)
    ensures m.None? <==> NoMatch(s, key)
    ensures m.Some? ==> forall i :: IsFirstMatch(s, key, i) ==> i == m.value
  {
    if m.Some? {
      assert MatchAt(s, key, m.value);
      forall i | IsFirstMatch(s, key, i) ensures i == m.value {
        assert MatchAt(s, key, i);
      }
    }
  }

  /** `int(m.group(1)) if m else 0` for the pattern `key(\d+)`. */
  function FieldOr0(s: string, key: string): (r: nat)
    ensures NoMatch(s, key) ==> r == 0
    ensures forall i :: IsFirstMatch(s, key, i) ==> r == DigitsValue(DigitRun(s, i + |key|))
  {
    NumberAfter(s, key).GetOr(0)
  }

  /**
    `extract_first_number` (and its twin `extract_number_after_colon`): 0 for a
    missing value, otherwise the digits after the first `:` that is immediately
    followed by a digit, or 0 when there is no such colon.
   */
  function ExtractFirstNumber(v: Option<string>): (r: nat)
    ensures v.None? ==> r == 0
    ensures v.Some? && NoMatch(v.value, ":") ==> r == 0
    ensures v.Some? ==> forall i :: IsFirstMatch(v.value, ":", i) ==> r == DigitsValue(DigitRun(v.value, i + 1))
  {
    match v
    case None => 0
    case Some(s) => FieldOr0(s, ":")
  }

  /** The digit run read at `i` is exactly a digit string placed there and not followed by a digit. */
  lemma DigitRunOf(s: string, i: nat, d: string)
    requires AllDigits(d) && i + |d| <= |s| && s[i..i + |d|] == d
    requires i + |d| == |s| || !IsDigit(s[i + |d|])
    ensures DigitRun(s, i) == d
  {
    forall t | i <= t < i + |d| ensures IsDigit(s[t]) {
      assert s[t] == d[t - i];
    }
    RunLengthOf(s, i, |d|);
  }

  /** A run of `n` digits at `i` that stops there has length `n`. */
  lemma {:induction false} RunLengthOf(s: string, i: nat, n: nat)
    requires i + n <= |s|
    requires forall t :: i <= t < i + n ==> IsDigit(s[t])
    requires i + n == |s| || !IsDigit(s[i + n])
    ensures RunLength(s, i) == n
    decreases n
  {
    if n > 0 {
      RunLengthOf(s, i + 1, n - 1);
    }
  }

  /**
    A number the device wrote after a key reads back: when `key` followed by
    `str(n)` first appears right after `pre`, and the number is not followed by
    another digit, the search returns `n`.
   */
  lemma ReadsBackWrittenNumber(pre: string, key: string, n: nat, post: string)
    requires forall j :: 0 <= j < |pre| ==> !MatchAt(pre + key + NatToString(n) + post, key, j)
    requires post == [] || !IsDigit(post[0])
    ensures NumberAfter(pre + key + NatToString(n) + post, key) == Some(n)
  {
    var d := NatToString(n);
    var s := pre + key + d + post;
    assert DigitsValue(d) == n by { NatToStringRoundTrip(n); }
    assert IsFirstMatch(s, key, |pre|) by { FirstMatchAfterPrefix(pre, key, d, post); }
    assert |pre| + |key| <= |s| && DigitRun(s, |pre| + |key|) == d by { RunAfterKey(pre, key, d, post); }
    DigitsAtFirstMatch(s, key, |pre|, d);
  }

  /** With no earlier match, the key written after `pre` and followed by digits is the first match. */
  lemma FirstMatchAfterPrefix(pre: string, key: string, d: string, post: string)
    requires |d| > 0 && AllDigits(d)
    requires forall j :: 0 <= j < |pre| ==> !MatchAt(pre + key + d + post, key, j)
    ensures IsFirstMatch(pre + key + d + post, key, |pre|)
  {
    Layout(pre, key, d, post);
    assert MatchAt(pre + key + d + post, key, |pre|);
  }

  /** The search reads its number right after its first match. */
  lemma NumberAtFirstMatch(s: string, key: string, i: nat)
    requires IsFirstMatch(s, key, i)
    ensures NumberAfter(s, key) == Some(DigitsValue(DigitRun(s, i + |key|)))
  {
  }

  /** The search returns the digit string that follows its first match. */
  lemma DigitsAtFirstMatch(s: string, key: string, i: nat, d: string)
    requires IsFirstMatch(s, key, i)
    requires i + |key| <= |s| && DigitRun(s, i + |key|) == d
    ensures NumberAfter(s, key) == Some(DigitsValue(d))
  {
    NumberAtFirstMatch(s, key, i);
  }

  /** The digit run read right after the key is the written number. */
  lemma RunAfterKey(pre: string, key: string, d: string, post: string)
    requires |d| > 0 && AllDigits(d) && (post == [] || !IsDigit(post[0]))
    ensures |pre| + |key| <= |pre + key + d + post|
    ensures DigitRun(pre + key + d + post, |pre| + |key|) == d
  {
    Layout(pre, key, d, post);
    DigitRunOf(pre + key + d + post, |pre| + |key|, d);
  }

  /** Where the pieces of `pre + key + d + post` sit, for a non-empty `d`. */
  lemma Layout(pre: string, key: string, d: string, post: string)
    requires |d| > 0
    ensures var s := pre + key + d + post; var k := |pre| + |key|;
      && |s| == k + |d| + |post|
      && s[|pre|..k] == key && s[k..k + |d|] == d && s[k] == d[0]
      && (k + |d| == |s| || s[k + |d|] == post[0])
  {
    var s := pre + key + d + post;
    assert s == (pre + key) + (d + post);
    assert s == (pre + key) + d + post;
  }

  /** The key spelling with the encoded underscore replaced (`Key.str.replace("+AF8-", "_")`). */
  function KeyNorm(key: string): (r: string)
    ensures |r| <= |key|
    ensures forall c :: c in r ==> c in key || c == '_'
  {
    ReplaceAll(key, "+AF8-", "_")
  }

  /** The encoded underscore between two plain words becomes `_`: `heart+AF8-rate` reads as `heart_rate`. */
  lemma KeyNormEncoded(a: string, b: string)
    requires '+' !in a && '+' !in b
    ensures KeyNorm(a + "+AF8-" + b) == a + "_" + b
  {
    var pat := "+AF8-";
    assert a + pat + b == a + (pat + b);
    ReplaceAllSkip(a, pat + b, pat, "_");
    ReplaceAllFront(pat, b, "_");
    ReplaceAllSkip(b, [], pat, "_");
    assert b + [] == b;
  }

  /** A key that carries no encoded underscore is its own normal form. */
  lemma KeyNormPlain(key: string)
    requires !Contains(key, "+AF8-")
    ensures KeyNorm(key) == key
  {
    ReplaceAllNoOccurrence(key, "+AF8-", "_");
  }
}
