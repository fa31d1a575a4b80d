/** One attempt of the cycle generator's day loop
    (src/components/StudyPlanner.tsx, generateIntelligentCyclePlan): the filter
    of the rotation pool and the focus mode's `reduce` that selects a subject.

    Each selection is written twice: as a method with the source's loop and as
    a function the method is proved against; lemmas then state what the
    function picks in terms that do not mention the fold. */
module CycleSelect {
  import opened Common
  import opened CycleWeights

  /** The filter of the day loop: a subject is skipped when consecutive days
      are avoided and it was used the day before, or when it is already among
      the day's tasks. */
  predicate Excluded(ws: WeightedSubject, day: int, avoidConsecutive: bool, tasks: seq<string>)
  {
    (avoidConsecutive && day > 0 && ws.lastUsedDay == day - 1) || ws.subject.name in tasks
  }

  predicate Increasing(r: seq<nat>)
  {
    forall i, j :: 0 <= i < j < |r| ==> r[i] < r[j]
  }

  /** Indices of the pool entries that pass the filter, in pool order (the
      source filters the entries themselves; their positions stand for them). */
  function Eligible(pool: seq<WeightedSubject>, day: int, avoidConsecutive: bool, tasks: seq<string>)
    : (r: seq<nat>)
    ensures |r| <= |pool|
  {
    if pool == [] then []
    else
      var n := |pool| - 1;
      Eligible(pool[..n], day, avoidConsecutive, tasks)
        + (if Excluded(pool[n], day, avoidConsecutive, tasks) then [] else [n])
  }

  /** `r` lists, in increasing order, exactly the positions of the pool
      entries that the filter keeps. */
  predicate Filtered(pool: seq<WeightedSubject>, day: int, avoidConsecutive: bool, tasks: seq<string>, r: seq<nat>)
  {
    && Increasing(r)
    && (forall k :: 0 <= k < |r| ==> r[k] < |pool| && !Excluded(pool[r[k]], day, avoidConsecutive, tasks))
    && (forall i :: 0 <= i < |pool| && !Excluded(pool[i], day, avoidConsecutive, tasks) ==> i in r)
  }

  /** The filter keeps every eligible entry and nothing else, in pool order. */
  lemma {:induction false} EligibleFilters(pool: seq<WeightedSubject>, day: int, avoidConsecutive: bool, tasks: seq<string>)
    ensures Filtered(pool, day, avoidConsecutive, tasks, Eligible(pool, day, avoidConsecutive, tasks))
  {
    if pool != [] {
      EligibleFilters(pool[..|pool| - 1], day, avoidConsecutive, tasks);
      FilteredExtend(pool, day, avoidConsecutive, tasks, Eligible(pool[..|pool| - 1], day, avoidConsecutive, tasks));
    }
  }

  /** Filtering one more entry appends its position when it is eligible. */
  lemma FilteredExtend(pool: seq<WeightedSubject>, day: int, avoidConsecutive: bool, tasks: seq<string>, r: seq<nat>)
    requires |pool| > 0
    requires Filtered(pool[..|pool| - 1], day, avoidConsecutive, tasks, r)
    ensures Filtered(pool, day, avoidConsecutive, tasks,
      r + (if Excluded(pool[|pool| - 1], day, avoidConsecutive, tasks) then [] else [|pool| - 1]))
  {
    var n := |pool| - 1;
    var e := if Excluded(pool[n], day, avoidConsecutive, tasks) then [] else [n];
    ExtendIncreasing(r, e, n);
    ExtendKept(pool, day, avoidConsecutive, tasks, r, e);
    ExtendComplete(pool, day, avoidConsecutive, tasks, r, e);
  }

  lemma ExtendIncreasing(r: seq<nat>, e: seq<nat>, n: nat)
    requires Increasing(r) && IndicesBelow(r, n)
    requires e == [] || e == [n]
    ensures Increasing(r + e)
  {
    var r2 := r + e;
    forall i, j | 0 <= i < j < |r2|
      ensures r2[i] < r2[j]
    {
      if j >= |r| {
        assert r2[i] == r[i];
      }
    }
  }

  lemma ExtendKept(pool: seq<WeightedSubject>, day: int, avoidConsecutive: bool, tasks: seq<string>, r: seq<nat>, e: seq<nat>)
    requires |pool| > 0
    requires forall k :: 0 <= k < |r| ==> r[k] < |pool| - 1 && !Excluded(pool[..|pool| - 1][r[k]], day, avoidConsecutive, tasks)
    requires e == if Excluded(pool[|pool| - 1], day, avoidConsecutive, tasks) then [] else [|pool| - 1]
    ensures forall k :: 0 <= k < |r + e| ==> (r + e)[k] < |pool| && !Excluded(pool[(r + e)[k]], day, avoidConsecutive, tasks)
  {
    var r2 := r + e;
    forall k | 0 <= k < |r2|
      ensures r2[k] < |pool| && !Excluded(pool[r2[k]], day, avoidConsecutive, tasks)
    {
      if k < |r| {
        assert r2[k] == r[k] && pool[..|pool| - 1][r[k]] == pool[r[k]];
      }
    }
  }

  lemma ExtendComplete(pool: seq<WeightedSubject>, day: int, avoidConsecutive: bool, tasks: seq<string>, r: seq<nat>, e: seq<nat>)
    requires |pool| > 0
    requires forall i :: 0 <= i < |pool| - 1 && !Excluded(pool[..|pool| - 1][i], day, avoidConsecutive, tasks) ==> i in r
    requires e == if Excluded(pool[|pool| - 1], day, avoidConsecutive, tasks) then [] else [|pool| - 1]
    ensures forall i :: 0 <= i < |pool| && !Excluded(pool[i], day, avoidConsecutive, tasks) ==> i in r + e
  {
    var n := |pool| - 1;
    forall i | 0 <= i < |pool| && !Excluded(pool[i], day, avoidConsecutive, tasks)
      ensures i in r + e
    {
      if i < n {
        assert pool[..n][i] == pool[i];
        assert i in r;
      } else {
        assert (r + e)[|r|] == n;
      }
    }
  }

  /** Some pool entry passes the start-of-day filter. */
  ghost predicate SomeEligible(pool: seq<WeightedSubject>, day: int, avoidConsecutive: bool)
  {
    exists i :: 0 <= i < |pool| && !Excluded(pool[i], day, avoidConsecutive, [])
  }

  /** The filter leaves something exactly when some entry is eligible. */
  lemma EligibleIffSome(pool: seq<WeightedSubject>, day: int, avoidConsecutive: bool)
    ensures SomeEligible(pool, day, avoidConsecutive) <==> Eligible(pool, day, avoidConsecutive, []) != []
  {
    EligibleFilters(pool, day, avoidConsecutive, []);
    var r := Eligible(pool, day, avoidConsecutive, []);
    if r != [] {
      assert !Excluded(pool[r[0]], day, avoidConsecutive, []);
    }
  }

  /** A non-empty pool in which no entry is eligible at the start of a day. */
  ghost predicate NothingEligible(pool: seq<WeightedSubject>, day: int, avoidConsecutive: bool)
  {
    |pool| > 0 && !SomeEligible(pool, day, avoidConsecutive)
  }

  /** A day can start with nothing eligible only when consecutive days are
      avoided, it is not the first day, and every pool entry was used the day
      before. */
  lemma NothingEligibleMeans(pool: seq<WeightedSubject>, day: int, avoidConsecutive: bool)
    ensures NothingEligible(pool, day, avoidConsecutive) <==>
      && |pool| > 0 && avoidConsecutive && day > 0
      && forall i :: 0 <= i < |pool| ==> pool[i].lastUsedDay == day - 1
  {
    if |pool| > 0 && !SomeEligible(pool, day, avoidConsecutive) {
      assert !(!Excluded(pool[0], day, avoidConsecutive, []));
    }
  }

  /** In balanced mode the current candidate replaces the running minimum when
      it was used fewer times, or as often but weighs strictly more. */
  predicate FewerUses(a: WeightedSubject, b: WeightedSubject)
  {
    a.timesUsed < b.timesUsed || (a.timesUsed == b.timesUsed && a.weight > b.weight)
  }

  /** Every entry is an index below `n`. */
  predicate IndicesBelow(indices: seq<nat>, n: nat)
  {
    forall k :: 0 <= k < |indices| ==> indices[k] < n
  }

  /** The filter yields positions of the pool. */
  lemma {:induction false} EligibleBelow(pool: seq<WeightedSubject>, day: int, avoidConsecutive: bool, tasks: seq<string>)
    ensures IndicesBelow(Eligible(pool, day, avoidConsecutive, tasks), |pool|)
  {
    if pool != [] {
      EligibleBelow(pool[..|pool| - 1], day, avoidConsecutive, tasks);
    }
  }

  /** The balanced-mode `reduce` over the pool entries listed by `available`,
      as a left fold: the running minimum is replaced by an entry with fewer
      uses. */
  function BalancedIndex(pool: seq<WeightedSubject>, available: seq<nat>): (s: nat)
    requires |available| > 0 && IndicesBelow(available, |pool|)
    ensures s in available
  {
    if |available| == 1 then available[0]
    else
      var n := |available| - 1;
      var q := BalancedIndex(pool, available[..n]);
      if FewerUses(pool[available[n]], pool[q]) then available[n] else q
  }

  /** `sel` is what the balanced reduce picks among the pool entries listed
      (in pool order) by `available`: no listed entry has fewer uses, and
      every listed entry before it has more. */
  ghost predicate BalancedChoice(pool: seq<WeightedSubject>, available: seq<nat>, sel: nat)
  {
    && sel < |pool|
    && sel in available
    && forall k :: 0 <= k < |available| && available[k] < |pool| ==>
         && !FewerUses(pool[available[k]], pool[sel])
         && (available[k] < sel ==> FewerUses(pool[sel], pool[available[k]]))
  }

  /** The fold keeps the first entry with the fewest uses (ties: the greatest
      weight). */
  lemma {:induction false} BalancedIndexChoice(pool: seq<WeightedSubject>, available: seq<nat>)
    requires |available| > 0 && IndicesBelow(available, |pool|) && Increasing(available)
    ensures BalancedChoice(pool, available, BalancedIndex(pool, available))
  {
    if |available| > 1 {
      var n := |available| - 1;
      BalancedIndexChoice(pool, available[..n]);
      BalancedChoiceStep(pool, available, BalancedIndex(pool, available[..n]));
    }
  }

  /** The running minimum over all but the last listed entry, compared with
      the last one, is the minimum over the whole list. */
  lemma BalancedChoiceStep(pool: seq<WeightedSubject>, available: seq<nat>, q: nat)
    requires |available| > 1 && IndicesBelow(available, |pool|) && Increasing(available)
    requires BalancedChoice(pool, available[..|available| - 1], q)
    ensures BalancedChoice(pool, available,
      if FewerUses(pool[available[|available| - 1]], pool[q]) then available[|available| - 1] else q)
  {
    var n := |available| - 1;
    var front := available[..n];
    var last := available[n];
    var sel := if FewerUses(pool[last], pool[q]) then last else q;
    assert q in available by {
      var j :| 0 <= j < n && front[j] == q;
      assert available[j] == q;
    }
    forall k | 0 <= k < |available|
      ensures !FewerUses(pool[available[k]], pool[sel])
      ensures available[k] < sel ==> FewerUses(pool[sel], pool[available[k]])
    {
      if k < n {
        assert front[k] == available[k];
        assert available[k] < last;
      } else {
        assert q < last by {
          var j :| 0 <= j < n && front[j] == q;
          assert available[j] == q;
        }
      }
    }
  }

  /** The balanced-mode `reduce`: keeps the first available entry with the
      fewest uses, ties going to the strictly heavier one. */
  method SelectBalanced(pool: seq<WeightedSubject>, available: seq<nat>) returns (selected: nat)
    requires |available| > 0 && IndicesBelow(available, |pool|)
    ensures selected == BalancedIndex(pool, available)
  {
    selected := available[0];
    for k := 1 to |available|
      invariant selected == BalancedIndex(pool, available[..k])
    {
      assert available[..k + 1][..k] == available[..k];
      var current, min := pool[available[k]], pool[selected];
      if current.timesUsed < min.timesUsed {
        selected := available[k];
      } else if current.timesUsed == min.timesUsed && current.weight > min.weight {
        selected := available[k];
      }
    }
    assert available[..|available|] == available;
  }

  /** The priority/difficulty score `weight / max(1, timesUsed + 1)`. */
  function AdjustedWeight(ws: WeightedSubject): real
  {
    ws.weight / Max(1.0, ws.timesUsed as real + 1.0)
  }

  /** The priority/difficulty `reduce` over the pool entries listed by
      `available`, as a left fold: the running maximum is replaced by an entry
      with a strictly larger adjusted weight. */
  function WeightedIndex(pool: seq<WeightedSubject>, available: seq<nat>): (s: nat)
    requires |available| > 0 && IndicesBelow(available, |pool|)
    ensures s in available
  {
    if |available| == 1 then available[0]
    else
      var n := |available| - 1;
      var q := WeightedIndex(pool, available[..n]);
      if AdjustedWeight(pool[available[n]]) > AdjustedWeight(pool[q]) then available[n] else q
  }

  /** `sel` is what the priority/difficulty reduce picks among the pool
      entries listed (in pool order) by `available`: no listed entry has a
      larger adjusted weight, and every listed entry before it a smaller one. */
  ghost predicate WeightedChoice(pool: seq<WeightedSubject>, available: seq<nat>, sel: nat)
  {
    && sel < |pool|
    && sel in available
    && forall k :: 0 <= k < |available| && available[k] < |pool| ==>
         && AdjustedWeight(pool[available[k]]) <= AdjustedWeight(pool[sel])
         && (available[k] < sel ==> AdjustedWeight(pool[available[k]]) < AdjustedWeight(pool[sel]))
  }

  /** The fold keeps the first entry with the largest adjusted weight. */
  lemma {:induction false} WeightedIndexChoice(pool: seq<WeightedSubject>, available: seq<nat>)
    requires |available| > 0 && IndicesBelow(available, |pool|) && Increasing(available)
    ensures WeightedChoice(pool, available, WeightedIndex(pool, available))
  {
    if |available| > 1 {
      var n := |available| - 1;
      WeightedIndexChoice(pool, available[..n]);
      WeightedChoiceStep(pool, available, WeightedIndex(pool, available[..n]));
    }
  }

  /** The running maximum over all but the last listed entry, compared with
      the last one, is the maximum over the whole list. */
  lemma WeightedChoiceStep(pool: seq<WeightedSubject>, available: seq<nat>, q: nat)
    requires |available| > 1 && IndicesBelow(available, |pool|) && Increasing(available)
    requires WeightedChoice(pool, available[..|available| - 1], q)
    ensures WeightedChoice(pool, available,
      if AdjustedWeight(pool[available[|available| - 1]]) > AdjustedWeight(pool[q]) then available[|available| - 1] else q)
  {
    var n := |available| - 1;
    var front := available[..n];
    var last := available[n];
    var sel := if AdjustedWeight(pool[last]) > AdjustedWeight(pool[q]) then last else q;
    assert q in available by {
      var j :| 0 <= j < n && front[j] == q;
      assert available[j] == q;
    }
    forall k | 0 <= k < |available|
      ensures AdjustedWeight(pool[available[k]]) <= AdjustedWeight(pool[sel])
      ensures available[k] < sel ==> AdjustedWeight(pool[available[k]]) < AdjustedWeight(pool[sel])
    {
      if k < n {
        assert front[k] == available[k];
        assert available[k] < last;
      } else {
        assert q < last by {
          var j :| 0 <= j < n && front[j] == q;
          assert available[j] == q;
        }
      }
    }
  }

  /** The priority/difficulty `reduce` (over spread copies carrying
      `adjustedWeight`): keeps the first available entry with the largest
      adjusted weight. */
  method SelectWeighted(pool: seq<WeightedSubject>, available: seq<nat>) returns (selected: nat)
    requires |available| > 0 && IndicesBelow(available, |pool|)
    ensures selected == WeightedIndex(pool, available)
  {
    selected := available[0];
    for k := 1 to |available|
      invariant selected == WeightedIndex(pool, available[..k])
    {
      assert available[..k + 1][..k] == available[..k];
      if AdjustedWeight(pool[available[k]]) > AdjustedWeight(pool[selected]) {
        selected := available[k];
      }
    }
    assert available[..|available|] == available;
  }

  /** One attempt's filter and selection: nothing when the filter leaves no
      subject, otherwise the pool index the focus mode's reduce keeps. */
  function Select(pool: seq<WeightedSubject>, day: int, config: CycleConfig, tasks: seq<string>)
    : (r: Option<nat>)
    ensures r.Some? ==> r.value < |pool|
  {
    EligibleBelow(pool, day, config.avoidConsecutive, tasks);
    var available := Eligible(pool, day, config.avoidConsecutive, tasks);
    if available == [] then None
    else if config.focusMode == Balanced then Some(BalancedIndex(pool, available))
    else Some(WeightedIndex(pool, available))
  }

  /** An attempt finds nothing exactly when no entry is eligible, and what it
      finds is an eligible entry. */
  lemma SelectSpec(pool: seq<WeightedSubject>, day: int, config: CycleConfig, tasks: seq<string>)
    ensures Select(pool, day, config, tasks).None? <==> Eligible(pool, day, config.avoidConsecutive, tasks) == []
    ensures Select(pool, day, config, tasks).Some? ==>
      !Excluded(pool[Select(pool, day, config, tasks).value], day, config.avoidConsecutive, tasks)
  {
    EligibleFilters(pool, day, config.avoidConsecutive, tasks);
  }

  /** The selected index is the first eligible entry with the fewest uses
      (balanced mode) or with the largest adjusted weight (priority and
      difficulty mode). */
  lemma SelectChoice(pool: seq<WeightedSubject>, day: int, config: CycleConfig, tasks: seq<string>)
    requires Select(pool, day, config, tasks).Some?
    ensures config.focusMode == Balanced ==>
      BalancedChoice(pool, Eligible(pool, day, config.avoidConsecutive, tasks), Select(pool, day, config, tasks).value)
    ensures config.focusMode != Balanced ==>
      WeightedChoice(pool, Eligible(pool, day, config.avoidConsecutive, tasks), Select(pool, day, config, tasks).value)
  {
    EligibleFilters(pool, day, config.avoidConsecutive, tasks);
    var available := Eligible(pool, day, config.avoidConsecutive, tasks);
    if config.focusMode == Balanced {
      BalancedIndexChoice(pool, available);
    } else {
      WeightedIndexChoice(pool, available);
    }
  }

  /** One attempt of the day loop: the filter followed by the focus mode's
      reduce. */
  method SelectSubject(pool: seq<WeightedSubject>, day: int, config: CycleConfig, tasks: seq<string>)
    returns (found: bool, selected: nat)
    ensures found <==> Select(pool, day, config, tasks).Some?
    ensures found ==> selected == Select(pool, day, config, tasks).value
  {
    EligibleFilters(pool, day, config.avoidConsecutive, tasks);
    var availableSubjects := Eligible(pool, day, config.avoidConsecutive, tasks);
    found := |availableSubjects| > 0;
    selected := 0;
    if !found {
      return;
    }
    if config.focusMode == Balanced {
      selected := SelectBalanced(pool, availableSubjects);
    } else {
      selected := SelectWeighted(pool, availableSubjects);
    }
  }
}
