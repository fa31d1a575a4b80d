/** The pool selection of the cycle generator: an in-place stable sort of the
    weighted subjects by descending weight (JavaScript's Array.prototype.sort
    with the comparator `b.weight - a.weight`, which is stable), followed by
    `slice(0, subjectsPerCycle)`. */
module WeightSort {
  import opened CycleWeights

  /** Non-increasing by weight. */
  ghost predicate SortedByWeight(s: seq<WeightedSubject>)
  {
    forall i, j :: 0 <= i < j < |s| ==> s[i].weight >= s[j].weight
  }

  /** Inserts `x` after every element of `t` that weighs at least as much,
      scanning from the back as the in-place sort shifts. */
  function Insert(x: WeightedSubject, t: seq<WeightedSubject>): (r: seq<WeightedSubject>)
    ensures |r| == |t| + 1
  {
    if t == [] then [x]
    else if t[|t| - 1].weight >= x.weight then t + [x]
    else Insert(x, t[..|t| - 1]) + [t[|t| - 1]]
  }

  /** The stable descending sort, as insertion sort from the left. */
  function SortByWeight(s: seq<WeightedSubject>): (r: seq<WeightedSubject>)
    ensures |r| == |s|
  {
    if s == [] then []
    else Insert(s[|s| - 1], SortByWeight(s[..|s| - 1]))
  }

  lemma {:induction false} InsertPermutes(x: WeightedSubject, t: seq<WeightedSubject>)
    ensures multiset(Insert(x, t)) == multiset(t) + multiset{x}
  {
    if t != [] && t[|t| - 1].weight < x.weight {
      var t', last := t[..|t| - 1], t[|t| - 1];
      assert t == t' + [last];
      InsertPermutes(x, t');
    }
  }

  /** The sort is a permutation of its input. */
  lemma {:induction false} SortPermutes(s: seq<WeightedSubject>)
    ensures multiset(SortByWeight(s)) == multiset(s)
  {
    if s != [] {
      var s', x := s[..|s| - 1], s[|s| - 1];
      assert s == s' + [x];
      SortPermutes(s');
      InsertPermutes(x, SortByWeight(s'));
    }
  }

  lemma {:induction false} InsertSorted(x: WeightedSubject, t: seq<WeightedSubject>)
    requires SortedByWeight(t)
    ensures SortedByWeight(Insert(x, t))
    ensures forall e :: e in Insert(x, t) ==> e == x || e in t
  {
    var r := Insert(x, t);
    InsertPermutes(x, t);
    assert forall e :: e in r ==> e in multiset(r);
    if t != [] && t[|t| - 1].weight < x.weight {
      var t', last := t[..|t| - 1], t[|t| - 1];
      InsertSorted(x, t');
      var r' := Insert(x, t');
      assert r == r' + [last];
      forall i | 0 <= i < |r'| ensures r'[i].weight >= last.weight {
        assert r'[i] in r';
      }
    }
  }

  /** The sort's result is ordered by non-increasing weight. */
  lemma {:induction false} SortSorted(s: seq<WeightedSubject>)
    ensures SortedByWeight(SortByWeight(s))
  {
    if s != [] {
      SortSorted(s[..|s| - 1]);
      InsertSorted(s[|s| - 1], SortByWeight(s[..|s| - 1]));
    }
  }

  /** The elements of `s` whose weight is exactly `w`, in order. */
  function OfWeight(s: seq<WeightedSubject>, w: real): seq<WeightedSubject>
  {
    if s == [] then []
    else OfWeight(s[..|s| - 1], w) + (if s[|s| - 1].weight == w then [s[|s| - 1]] else [])
  }

  lemma {:induction false} OfWeightAppend(a: seq<WeightedSubject>, b: seq<WeightedSubject>, w: real)
    ensures OfWeight(a + b, w) == OfWeight(a, w) + OfWeight(b, w)
  {
    if b == [] {
      assert a + b == a;
    } else {
      assert (a + b)[..|a + b| - 1] == a + b[..|b| - 1];
      OfWeightAppend(a, b[..|b| - 1], w);
    }
  }

  lemma {:induction false} InsertStable(x: WeightedSubject, t: seq<WeightedSubject>, w: real)
    ensures OfWeight(Insert(x, t), w) == OfWeight(t, w) + OfWeight([x], w)
  {
    assert OfWeight([x], w) == (if x.weight == w then [x] else []) by {
      assert [x][..0] == [];
    }
    if t == [] {
    } else if t[|t| - 1].weight >= x.weight {
      OfWeightAppend(t, [x], w);
    } else {
      var t', last := t[..|t| - 1], t[|t| - 1];
      assert t == t' + [last];
      InsertStable(x, t', w);
      OfWeightAppend(Insert(x, t'), [last], w);
      OfWeightAppend(t', [last], w);
      assert [last][..0] == [];
    }
  }

  /** Stability: subjects of equal weight keep their input order. */
  lemma {:induction false} SortStable(s: seq<WeightedSubject>, w: real)
    ensures OfWeight(SortByWeight(s), w) == OfWeight(s, w)
  {
    if s != [] {
      var s', x := s[..|s| - 1], s[|s| - 1];
      SortStable(s', w);
      InsertStable(x, SortByWeight(s'), w);
      assert s == s' + [x];
      OfWeightAppend(s', [x], w);
    }
  }

  /** Insert as the in-place shifting loop computes it: `x` lands at position
      `j`, after the prefix that weighs at least as much and before the suffix
      that weighs less. */
  lemma {:induction false} InsertAt(x: WeightedSubject, t: seq<WeightedSubject>, j: nat)
    requires j <= |t|
    requires j == 0 || t[j - 1].weight >= x.weight
    requires forall k :: j <= k < |t| ==> t[k].weight < x.weight
    ensures Insert(x, t) == t[..j] + [x] + t[j..]
    decreases |t|
  {
    if t == [] {
    } else if t[|t| - 1].weight >= x.weight {
      assert j == |t|;
    } else {
      var t' := t[..|t| - 1];
      InsertAt(x, t', j);
      assert t[j..] == t'[j..] + [t[|t| - 1]];
    }
  }

  /** One step of the in-place sort: shifts the elements of `a[..i]` that
      weigh less than `a[i]` one place right and drops `a[i]` into the gap. */
  method InsertInPlace(a: array<WeightedSubject>, i: nat)
    requires i < a.Length
    modifies a
    ensures a[..i + 1] == Insert(old(a[i]), old(a[..i]))
    ensures a[i + 1..] == old(a[i + 1..])
  {
    ghost var sorted := a[..i];
    var x := a[i];
    var j := i;
    while j > 0 && a[j - 1].weight < x.weight
      invariant 0 <= j <= i
      invariant forall k :: 0 <= k < j ==> a[k] == sorted[k]
      invariant forall k :: j < k <= i ==> a[k] == sorted[k - 1]
      invariant forall k :: i < k < a.Length ==> a[k] == old(a[k])
      invariant forall k :: j <= k < i ==> sorted[k].weight < x.weight
    {
      a[j] := a[j - 1];
      j := j - 1;
    }
    a[j] := x;
    InsertAt(x, sorted, j);
    assert a[..i + 1] == sorted[..j] + [x] + sorted[j..] by {
      forall k | 0 <= k <= i
        ensures a[..i + 1][k] == (sorted[..j] + [x] + sorted[j..])[k]
      {
        if k > j {
          assert (sorted[..j] + [x] + sorted[j..])[k] == sorted[k - 1];
        }
      }
    }
  }

  /** The in-place sort at the pool selection: insertion sort, shifting each
      element left past the lighter ones. */
  method SortInPlace(a: array<WeightedSubject>)
    modifies a
    ensures a[..] == SortByWeight(old(a[..]))
  {
    ghost var input := a[..];
    var i := 0;
    while i < a.Length
      invariant 0 <= i <= a.Length
      invariant a[..i] == SortByWeight(input[..i])
      invariant a[i..] == input[i..]
    {
      InsertInPlace(a, i);
      assert input[..i + 1][..i] == input[..i];
      i := i + 1;
    }
    assert input[..a.Length] == input;
  }

  /** JavaScript's `slice(0, k)` length: a negative bound counts from the end. */
  function SliceEnd(n: nat, k: int): (m: nat)
    ensures m <= n
    ensures 0 <= k ==> m == (if k <= n then k else n)
  {
    if k >= 0 then (if k <= n then k else n)
    else if n + k >= 0 then n + k else 0
  }

  /** The rotation pool: every weighted subject when `forceAllSubjects`, else
      the first `subjectsPerCycle` after the stable sort. */
  function PoolFor(weighted: seq<WeightedSubject>, config: CycleConfig): (pool: seq<WeightedSubject>)
    ensures config.forceAllSubjects ==> pool == weighted
    ensures !config.forceAllSubjects ==> |pool| == SliceEnd(|weighted|, config.subjectsPerCycle)
  {
    if config.forceAllSubjects then weighted
    else SortByWeight(weighted)[..SliceEnd(|weighted|, config.subjectsPerCycle)]
  }

  /** Without `forceAllSubjects` the pool holds the heaviest subjects: every
      pool member weighs at least as much as every weighted subject left out,
      and the pool is a sub-multiset of the weighted subjects. */
  lemma PoolIsHeaviest(weighted: seq<WeightedSubject>, config: CycleConfig)
    requires !config.forceAllSubjects
    ensures multiset(PoolFor(weighted, config)) <= multiset(weighted)
    ensures var sorted := SortByWeight(weighted);
      var m := SliceEnd(|weighted|, config.subjectsPerCycle);
      forall i, j :: 0 <= i < m <= j < |weighted| ==> sorted[i].weight >= sorted[j].weight
  {
    var sorted := SortByWeight(weighted);
    var m := SliceEnd(|weighted|, config.subjectsPerCycle);
    SortSorted(weighted);
    SortPermutes(weighted);
    assert sorted == sorted[..m] + sorted[m..];
  }
}
