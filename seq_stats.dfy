/**
  Sums, minima and maxima of lists of readings (Python's `sum`, `min` and
  `max`), the bounds that tie the mean to them, and the element-wise maps
  (list comprehensions) the other modules build their results with.
 */
module SeqStats {
  import opened Wrappers

  function Sum(s: seq<nat>): nat
    decreases |s|
  {
    if s == [] then 0 else Sum(s[..|s| - 1]) + s[|s| - 1]
  }

  /** Python's `min` of a non-empty list. */
  function SeqMin(s: seq<nat>): nat
    requires s != []
    decreases |s|
  {
    if |s| == 1 then s[0]
    else
      var m := SeqMin(s[..|s| - 1]);
      if s[|s| - 1] < m then s[|s| - 1] else m
  }

  /** Python's `max` of a non-empty list. */
  function SeqMax(s: seq<nat>): nat
    requires s != []
    decreases |s|
  {
    if |s| == 1 then s[0]
    else
      var m := SeqMax(s[..|s| - 1]);
      if s[|s| - 1] > m then s[|s| - 1] else m
  }

  /** The minimum is an element of the list and bounds every element from below. */
  lemma {:induction false} MinIsLeast(s: seq<nat>)
    requires s != []
    ensures SeqMin(s) in s
    ensures forall k :: 0 <= k < |s| ==> SeqMin(s) <= s[k]
    decreases |s|
  {
    if |s| > 1 {
      var init := s[..|s| - 1];
      MinIsLeast(init);
      assert forall k :: 0 <= k < |init| ==> init[k] == s[k];
      assert SeqMin(init) in s by { var k :| 0 <= k < |init| && init[k] == SeqMin(init); assert s[k] == init[k]; }
    }
  }

  /** The maximum is an element of the list and bounds every element from above. */
  lemma {:induction false} MaxIsGreatest(s: seq<nat>)
    requires s != []
    ensures SeqMax(s) in s
    ensures forall k :: 0 <= k < |s| ==> s[k] <= SeqMax(s)
    decreases |s|
  {
    if |s| > 1 {
      var init := s[..|s| - 1];
      MaxIsGreatest(init);
      assert forall k :: 0 <= k < |init| ==> init[k] == s[k];
      assert SeqMax(init) in s by { var k :| 0 <= k < |init| && init[k] == SeqMax(init); assert s[k] == init[k]; }
    }
  }

  /** The sum lies between |s| times the minimum and |s| times the maximum. */
  lemma {:induction false} SumBounds(s: seq<nat>)
    requires s != []
    ensures |s| * SeqMin(s) <= Sum(s) <= |s| * SeqMax(s)
    decreases |s|
  {
    if |s| > 1 {
      var init := s[..|s| - 1];
      var n := |init|;
      var last := s[|s| - 1];
      assert s == init + [last];
      assert Sum(s) == Sum(init) + last;
      SumBounds(init);
      var lo, hi := SeqMin(s), SeqMax(s);
      assert lo <= SeqMin(init) && lo <= last;
      assert SeqMax(init) <= hi && last <= hi;
      MulMono(n, lo, SeqMin(init));
      MulMono(n, SeqMax(init), hi);
      assert |s| == n + 1;
      MulSucc(n, lo);
      MulSucc(n, hi);
    }
  }

  lemma MulMono(a: nat, b: nat, c: nat)
    requires b <= c
    ensures a * b <= a * c
  {
  }

  lemma MulSucc(n: nat, x: nat)
    ensures (n + 1) * x == n * x + x
  {
  }

  /** From `n*lo <= sum <= n*hi` with n > 0, the mean lies between lo and hi. */
  lemma MeanBetween(sum: nat, n: nat, lo: nat, hi: nat)
    requires n > 0 && n * lo <= sum <= n * hi
    ensures lo as real <= sum as real / n as real <= hi as real
  {
    assert (n * lo) as real == n as real * lo as real;
    assert (n * hi) as real == n as real * hi as real;
  }

  /** The mean of a non-empty list of readings lies between its minimum and its maximum. */
  lemma MeanWithinRange(s: seq<nat>)
    requires s != []
    ensures SeqMin(s) as real <= Sum(s) as real / |s| as real <= SeqMax(s) as real
  {
    SumBounds(s);
    MeanBetween(Sum(s), |s|, SeqMin(s), SeqMax(s));
  }

  /** `f` applied to every element, in order. */
  function Map<A, B>(f: A -> B, xs: seq<A>): (r: seq<B>)
    ensures |r| == |xs|
    decreases |xs|
  {
    if |xs| == 0 then []
    else Map(f, xs[..|xs| - 1]) + [f(xs[|xs| - 1])]
  }

  /** Element `k` of a mapped sequence is `f` of element `k`. */
  lemma {:induction false} MapAt<A, B>(f: A -> B, xs: seq<A>, k: nat)
    requires k < |xs|
    ensures Map(f, xs)[k] == f(xs[k])
    decreases |xs|
  {
    if k < |xs| - 1 {
      MapAt(f, xs[..|xs| - 1], k);
    }
  }

  /** Every element of a mapped sequence is `f` of the element at the same position. */
  lemma MapAll<A, B>(f: A -> B, xs: seq<A>)
    ensures forall k :: 0 <= k < |xs| ==> Map(f, xs)[k] == f(xs[k])
  {
    forall k | 0 <= k < |xs| ensures Map(f, xs)[k] == f(xs[k]) {
      MapAt(f, xs, k);
    }
  }

  /** Mapping a prefix one element longer appends that element's image. */
  lemma MapPrefix<A, B>(f: A -> B, xs: seq<A>, i: nat)
    requires i < |xs|
    ensures Map(f, xs[..i + 1]) == Map(f, xs[..i]) + [f(xs[i])]
  {
    assert xs[..i + 1][..i] == xs[..i];
  }

  /** Mapping one more element appends its image. */
  lemma MapSnoc<A, B>(f: A -> B, xs: seq<A>, x: A)
    ensures Map(f, xs + [x]) == Map(f, xs) + [f(x)]
  {
    assert (xs + [x])[..|xs|] == xs;
  }

  /** Mapping a sequence with one more element in front puts that element's image in front. */
  lemma MapCons<A, B>(f: A -> B, x: A, xs: seq<A>)
    ensures Map(f, [x] + xs) == [f(x)] + Map(f, xs)
  {
    var all := [x] + xs;
    forall k | 0 <= k < |all|
      ensures Map(f, all)[k] == ([f(x)] + Map(f, xs))[k]
    {
      MapAt(f, all, k);
      if k > 0 {
        MapAt(f, xs, k - 1);
      }
    }
  }

  /** `f` applied to every element, the results concatenated in order. */
  function FlatMap<A, B>(f: A -> seq<B>, xs: seq<A>): seq<B>
    decreases |xs|
  {
    if |xs| == 0 then [] else FlatMap(f, xs[..|xs| - 1]) + f(xs[|xs| - 1])
  }

  /** `FlatMap` over a prefix one element longer appends that element's results. */
  lemma FlatMapPrefix<A, B>(f: A -> seq<B>, xs: seq<A>, i: nat)
    requires i < |xs|
    ensures FlatMap(f, xs[..i + 1]) == FlatMap(f, xs[..i]) + f(xs[i])
  {
    assert xs[..i + 1][..i] == xs[..i];
  }

  /** `FlatMap` distributes over concatenation: results keep the order of their inputs. */
  lemma {:induction false} FlatMapAppend<A, B>(f: A -> seq<B>, a: seq<A>, b: seq<A>)
    ensures FlatMap(f, a + b) == FlatMap(f, a) + FlatMap(f, b)
    decreases |b|
  {
    if |b| == 0 {
      assert a + b == a;
    } else {
      var b' := b[..|b| - 1];
      assert (a + b)[..|a + b| - 1] == a + b';
      FlatMapAppend(f, a, b');
    }
  }

  /** `FlatMap` over a single element is that element's results. */
  lemma FlatMapOne<A, B>(f: A -> seq<B>, x: A)
    ensures FlatMap(f, [x]) == f(x)
  {
    assert [x][..0] == [];
  }

  /** `FlatMap` over one more element appends that element's results. */
  lemma FlatMapSnoc<A, B>(f: A -> seq<B>, xs: seq<A>, x: A)
    ensures FlatMap(f, xs + [x]) == FlatMap(f, xs) + f(x)
  {
    assert (xs + [x])[..|xs|] == xs;
  }

  /** Elements that all yield nothing yield nothing together. */
  lemma {:induction false} FlatMapNone<A, B>(f: A -> seq<B>, xs: seq<A>)
    requires forall x :: x in xs ==> f(x) == []
    ensures FlatMap(f, xs) == []
    decreases |xs|
  {
    if |xs| > 0 {
      assert xs[|xs| - 1] in xs;
      assert forall x :: x in xs[..|xs| - 1] ==> x in xs;
      FlatMapNone(f, xs[..|xs| - 1]);
    }
  }

  /** Every result of every element is among the results. */
  lemma {:induction false} FlatMapTo<A, B>(f: A -> seq<B>, xs: seq<A>, x: A, y: B)
    requires x in xs && y in f(x)
    ensures y in FlatMap(f, xs)
    decreases |xs|
  {
    var n := |xs| - 1;
    if xs[n] != x {
      assert x in xs[..n];
      FlatMapTo(f, xs[..n], x, y);
    }
  }

  /** When every element yields at most one result, there are at most as many results as elements. */
  lemma {:induction false} FlatMapAtMostOne<A, B>(f: A -> seq<B>, xs: seq<A>)
    requires forall x :: |f(x)| <= 1
    ensures |FlatMap(f, xs)| <= |xs|
    decreases |xs|
  {
    if |xs| > 0 {
      FlatMapAtMostOne(f, xs[..|xs| - 1]);
    }
  }

  /** Every result comes from some element. */
  lemma {:induction false} FlatMapFrom<A, B>(f: A -> seq<B>, xs: seq<A>, y: B)
    requires y in FlatMap(f, xs)
    ensures exists x :: x in xs && y in f(x)
    decreases |xs|
  {
    var init := xs[..|xs| - 1];
    if y in FlatMap(f, init) {
      FlatMapFrom(f, init, y);
      var x :| x in init && y in f(x);
      assert x in xs;
    } else {
      assert y in f(xs[|xs| - 1]);
    }
  }

  /** The last element satisfying `p`. */
  function LastWhere<T>(xs: seq<T>, p: T -> bool): Option<T>
    decreases |xs|
  {
    if |xs| == 0 then None
    else if p(xs[|xs| - 1]) then Some(xs[|xs| - 1])
    else LastWhere(xs[..|xs| - 1], p)
  }

  lemma LastWhereSnoc<T>(xs: seq<T>, x: T, p: T -> bool)
    ensures LastWhere(xs + [x], p) == if p(x) then Some(x) else LastWhere(xs, p)
  {
    assert (xs + [x])[..|xs|] == xs;
  }

  /** The element found satisfies `p` and no later one does; nothing is found exactly when no element satisfies `p`. */
  lemma {:induction false} LastWhereSpec<T>(xs: seq<T>, p: T -> bool)
    ensures LastWhere(xs, p).None? <==> forall j :: 0 <= j < |xs| ==> !p(xs[j])
    ensures LastWhere(xs, p).Some? ==> exists j ::
      && 0 <= j < |xs| && xs[j] == LastWhere(xs, p).value && p(xs[j])
      && forall k :: j < k < |xs| ==> !p(xs[k])
    decreases |xs|
  {
    if |xs| > 0 {
      var n := |xs| - 1;
      var init := xs[..n];
      LastWhereSpec(init, p);
      assert forall j :: 0 <= j < n ==> xs[j] == init[j];
      if !p(xs[n]) && LastWhere(xs, p).Some? {
        var j :| 0 <= j < n && init[j] == LastWhere(xs, p).value && p(init[j])
          && forall k :: j < k < n ==> !p(init[k]);
        assert xs[j] == init[j];
      }
    }
  }
}
