/** The 14-day cycle generator of the study planner
    (src/components/StudyPlanner.tsx, generateIntelligentCyclePlan).

    The generator weights the subjects, picks a rotation pool, then fills each
    day greedily: while the day is below its target and attempts remain it
    filters the eligible pool entries, selects one and adds a slot of
    0.5 to 2.5 hours.  Only each day's total survives into the output.  The
    per-day `tasks` list is never appended to, so the four-slot cap and the
    same-day filter never fire and the slot divisor is always 4; in priority
    and difficulty mode the selected subject is a spread copy, so the pool's
    counters change only in balanced mode. */
module CycleGenerator {
  import opened Common
  import opened CycleWeights
  import opened WeightSort
  import opened CycleSelect

  const DaysInCycle: nat := 14

  /** Two weeks of Monday-first labels. */
  const DayNames: seq<string> := WeekDays + WeekDays

  /** One day of the generated cycle.  The source also renders the hours into
      `topic`, `subtopic` and `duration` strings; those renderings are not
      modelled. */
  datatype CycleDay = CycleDay(
    day: int,
    dayName: string,
    subject: string,
    color: string,
    focus: string,
    priority: int,
    tasks: seq<string>,
    totalPlannedHours: real)

  /** The record pushed for day index `k` (0-based) with `hours` planned. */
  function PlannedDay(k: nat, hours: real): CycleDay
    requires k < DaysInCycle
  {
    CycleDay(k + 1, DayNames[k], "Estudos programados", "#8884d8", "Planejada", 1, [], hours)
  }

  /** The per-day target: `max(1, min(max(1.5, 2W/14), W/7))`, which always
      equals `max(1, W/7)`. */
  function DailyTarget(weeklyHours: real): (t: real)
    ensures t == Max(1.0, weeklyHours / 7.0)
    ensures t >= 1.0
  {
    var averageHoursPerDay := Max(1.5, weeklyHours * 2.0 / 14.0);
    Max(1.0, Min(averageHoursPerDay, weeklyHours / 7.0))
  }

  /** Length of one slot when `remaining` hours are left and `scheduled` tasks
      are already in the day: the remainder split over the free slots, capped
      at 2.5 hours and at the remainder, never below half an hour. */
  function SlotDuration(remaining: real, scheduled: nat): (d: real)
    ensures 0.5 <= d <= 2.5
    ensures remaining > 0.0 ==> d <= remaining || d == 0.5
  {
    var maxTaskDuration := Min(2.5, remaining);
    var minTaskDuration := 0.5;
    Max(minTaskDuration, Min(maxTaskDuration, remaining / Max(1.0, 4.0 - scheduled as real)))
  }

  /** Hours a day reaches from `hours` when every attempt finds an eligible
      subject: slots are added while below `target` and attempts remain. */
  function FillFrom(target: real, hours: real, attemptsLeft: nat): real
    decreases attemptsLeft
  {
    if hours < target && attemptsLeft > 0 then
      FillFrom(target, hours + SlotDuration(target - hours, 0), attemptsLeft - 1)
    else hours
  }

  /** The total of a day that starts empty with `maxAttempts` attempts. */
  function DayFill(target: real, maxAttempts: nat): real
  {
    FillFrom(target, 0.0, maxAttempts)
  }

  lemma {:induction false} FillBounds(target: real, hours: real, attemptsLeft: nat)
    requires 0.0 <= hours < target + 0.5
    ensures hours <= FillFrom(target, hours, attemptsLeft) < target + 0.5
    ensures FillFrom(target, hours, attemptsLeft) >= target
         || FillFrom(target, hours, attemptsLeft) >= hours + 0.5 * attemptsLeft as real
    decreases attemptsLeft
  {
    if hours < target && attemptsLeft > 0 {
      FillBounds(target, hours + SlotDuration(target - hours, 0), attemptsLeft - 1);
    }
  }

  /** Day totals: never negative, below target + 0.5 (the last slot may
      overshoot by at most its half-hour minimum), and either at the target or
      half an hour per attempt; with any attempt at all the day gets at least
      half an hour. */
  lemma DayFillBounds(target: real, maxAttempts: nat)
    requires target >= 1.0
    ensures 0.0 <= DayFill(target, maxAttempts) < target + 0.5
    ensures DayFill(target, maxAttempts) >= Min(target, 0.5 * maxAttempts as real)
    ensures maxAttempts > 0 ==> DayFill(target, maxAttempts) >= 0.5
  {
    FillBounds(target, 0.0, maxAttempts);
  }

  /** Balanced mode keeps every two pool entries' use counts within one. */
  ghost predicate UsageWithinOne(pool: seq<WeightedSubject>)
  {
    forall i, j :: 0 <= i < |pool| && 0 <= j < |pool| ==> pool[i].timesUsed <= pool[j].timesUsed + 1
  }

  /** The pool after the balanced pick `s` on `day`: the selected entry is the
      pool's own object, so its counters are updated in place. */
  function Bump(pool: seq<WeightedSubject>, s: nat, day: int): seq<WeightedSubject>
    requires s < |pool|
  {
    pool[s := pool[s].(timesUsed := pool[s].timesUsed + 1, lastUsedDay := day)]
  }

  /** With no subject excluded, the balanced pick has the fewest uses, so
      recording it keeps all counts within one. */
  lemma BalancedPickKeepsSpread(pool: seq<WeightedSubject>, day: int, s: nat)
    requires BalancedChoice(pool, Eligible(pool, day, false, []), s)
    requires UsageWithinOne(pool)
    ensures UsageWithinOne(Bump(pool, s, day))
  {
    EligibleFilters(pool, day, false, []);
    var available := Eligible(pool, day, false, []);
    forall i | 0 <= i < |pool| ensures pool[s].timesUsed <= pool[i].timesUsed {
      assert !Excluded(pool[i], day, false, []);
      assert i in available;
      var k :| 0 <= k < |available| && available[k] == i;
      assert !FewerUses(pool[available[k]], pool[s]);
    }
  }

  /** The pool with the balanced picks `picks` recorded on `day`: only the
      counters change, each entry's use count growing by the number of times
      it was picked and its last-used day becoming `day` exactly when it was
      picked. */
  ghost function Applied(pool: seq<WeightedSubject>, picks: seq<nat>, day: int): (r: seq<WeightedSubject>)
    ensures |r| == |pool|
  {
    seq(|pool|, i requires 0 <= i < |pool| =>
      pool[i].(timesUsed := pool[i].timesUsed + multiset(picks)[i as nat],
               lastUsedDay := if i in picks then day else pool[i].lastUsedDay))
  }

  /** Recording one more balanced pick is one more `Bump`. */
  lemma AppliedStep(pool: seq<WeightedSubject>, picks: seq<nat>, s: nat, day: int)
    requires s < |pool|
    ensures Applied(pool, picks + [s], day) == Bump(Applied(pool, picks, day), s, day)
  {
    assert multiset(picks + [s]) == multiset(picks) + multiset{s};
    forall i | 0 <= i < |pool|
      ensures Applied(pool, picks + [s], day)[i] == Bump(Applied(pool, picks, day), s, day)[i]
    {
      assert i in picks + [s] <==> i in picks || i == s;
    }
  }

  /** Every pick from position `from` on is `s`. */
  predicate PicksFrom(picks: seq<nat>, from: nat, s: nat)
  {
    forall k :: from <= k < |picks| ==> picks[k] == s
  }

  /** The day loop's running state: the hours planned so far, the pool with
      its counters, and the pool indices picked so far, in order. */
  datatype DayState = DayState(hours: real, pool: seq<WeightedSubject>, picks: seq<nat>)

  /** The pool after selecting entry `s`: in balanced mode the selected entry
      is the pool's own object and its counters are updated; otherwise it is a
      spread copy and the pool is untouched. */
  function Record(pool: seq<WeightedSubject>, s: nat, day: int, config: CycleConfig): (r: seq<WeightedSubject>)
    requires s < |pool|
    ensures |r| == |pool|
  {
    if config.focusMode == Balanced then Bump(pool, s, day) else pool
  }

  /** One successful attempt: entry `s` is recorded and a slot added.  The
      day's task list stays empty, so slots are sized for four tasks. */
  function Advance(st: DayState, s: nat, day: int, target: real, config: CycleConfig): DayState
    requires s < |st.pool|
  {
    DayState(st.hours + SlotDuration(target - st.hours, 0), Record(st.pool, s, day, config), st.picks + [s])
  }

  /** The loop goes on while the day is below target, attempts remain and
      some entry is eligible. */
  predicate Continues(st: DayState, day: int, target: real, config: CycleConfig, attemptsLeft: nat)
  {
    st.hours < target && attemptsLeft > 0 && Select(st.pool, day, config, []).Some?
  }

  /** The day loop from state `st` with `attemptsLeft` attempts remaining. */
  function DayFrom(st: DayState, day: int, target: real, config: CycleConfig, attemptsLeft: nat): (r: DayState)
    ensures |r.pool| == |st.pool|
    decreases attemptsLeft
  {
    if st.hours < target && attemptsLeft > 0 then
      match Select(st.pool, day, config, [])
      case None => st
      case Some(s) => DayFrom(Advance(st, s, day, target, config), day, target, config, attemptsLeft - 1)
    else st
  }

  /** One whole day on `pool`: starts at zero hours with three attempts per
      pool entry. */
  function Day(pool: seq<WeightedSubject>, day: int, target: real, config: CycleConfig): DayState
  {
    DayFrom(DayState(0.0, pool, []), day, target, config, 3 * |pool|)
  }

  lemma DayFromStop(st: DayState, day: int, target: real, config: CycleConfig, attemptsLeft: nat)
    requires !Continues(st, day, target, config, attemptsLeft)
    ensures DayFrom(st, day, target, config, attemptsLeft) == st
  {
  }

  lemma DayFromStep(st: DayState, day: int, target: real, config: CycleConfig, attemptsLeft: nat, s: nat)
    requires Continues(st, day, target, config, attemptsLeft) && Select(st.pool, day, config, []) == Some(s)
    ensures DayFrom(st, day, target, config, attemptsLeft)
         == DayFrom(Advance(st, s, day, target, config), day, target, config, attemptsLeft - 1)
  {
  }

  /** The day loop only appends picks, at most one per attempt, each a pool
      index. */
  lemma {:induction false} DayFromPicks(st: DayState, day: int, target: real, config: CycleConfig, attemptsLeft: nat)
    requires IndicesBelow(st.picks, |st.pool|)
    ensures |st.picks| <= |DayFrom(st, day, target, config, attemptsLeft).picks| <= |st.picks| + attemptsLeft
    ensures DayFrom(st, day, target, config, attemptsLeft).picks[..|st.picks|] == st.picks
    ensures IndicesBelow(DayFrom(st, day, target, config, attemptsLeft).picks, |st.pool|)
    decreases attemptsLeft
  {
    if Continues(st, day, target, config, attemptsLeft) {
      var s := Select(st.pool, day, config, []).value;
      var next := Advance(st, s, day, target, config);
      DayFromStep(st, day, target, config, attemptsLeft, s);
      DayFromPicks(next, day, target, config, attemptsLeft - 1);
      var r := DayFrom(next, day, target, config, attemptsLeft - 1);
      assert r.picks[..|st.picks|] == r.picks[..|next.picks|][..|st.picks|];
    } else {
      DayFromStop(st, day, target, config, attemptsLeft);
    }
  }

  /** Once something is eligible the day always fills: the picked entry stays
      eligible after its counters change, so no later attempt comes up empty
      and the hours follow the fill rule. */
  lemma {:induction false} DayFromHours(st: DayState, day: int, target: real, config: CycleConfig, attemptsLeft: nat)
    requires SomeEligible(st.pool, day, config.avoidConsecutive)
    ensures DayFrom(st, day, target, config, attemptsLeft).hours == FillFrom(target, st.hours, attemptsLeft)
    decreases attemptsLeft
  {
    EligibleIffSome(st.pool, day, config.avoidConsecutive);
    SelectSpec(st.pool, day, config, []);
    if st.hours < target && attemptsLeft > 0 {
      var s := Select(st.pool, day, config, []).value;
      var next := Advance(st, s, day, target, config);
      DayFromStep(st, day, target, config, attemptsLeft, s);
      assert !Excluded(next.pool[s], day, config.avoidConsecutive, []);
      DayFromHours(next, day, target, config, attemptsLeft - 1);
    } else {
      DayFromStop(st, day, target, config, attemptsLeft);
    }
  }

  /** A day's hours: none when nothing is eligible at its start, otherwise
      the fill of the target with three attempts per pool entry. */
  lemma DayHours(pool: seq<WeightedSubject>, day: int, target: real, config: CycleConfig)
    requires target > 0.0
    ensures Day(pool, day, target, config).hours ==
      if NothingEligible(pool, day, config.avoidConsecutive) then 0.0 else DayFill(target, 3 * |pool|)
  {
    EligibleIffSome(pool, day, config.avoidConsecutive);
    SelectSpec(pool, day, config, []);
    var st := DayState(0.0, pool, []);
    if SomeEligible(pool, day, config.avoidConsecutive) {
      DayFromHours(st, day, target, config, 3 * |pool|);
    } else if |pool| > 0 {
      DayFromStop(st, day, target, config, 3 * |pool|);
    }
  }

  /** A day picks nothing exactly when the pool is empty or nothing is
      eligible at its start. */
  lemma DayPicksNothing(pool: seq<WeightedSubject>, day: int, target: real, config: CycleConfig)
    requires target > 0.0
    ensures Day(pool, day, target, config).picks == [] <==>
      |pool| == 0 || NothingEligible(pool, day, config.avoidConsecutive)
  {
    EligibleIffSome(pool, day, config.avoidConsecutive);
    SelectSpec(pool, day, config, []);
    var st := DayState(0.0, pool, []);
    if Continues(st, day, target, config, 3 * |pool|) {
      var s := Select(pool, day, config, []).value;
      DayFromStep(st, day, target, config, 3 * |pool|, s);
      DayFromPicks(Advance(st, s, day, target, config), day, target, config, 3 * |pool| - 1);
    } else {
      DayFromStop(st, day, target, config, 3 * |pool|);
    }
  }

  /** Outside balanced mode the loop works on spread copies: the pool comes
      back unchanged and every attempt selects the same entry. */
  lemma {:induction false} DayFromFixed(st: DayState, day: int, target: real, config: CycleConfig, attemptsLeft: nat)
    requires config.focusMode != Balanced
    requires IndicesBelow(st.picks, |st.pool|)
    ensures DayFrom(st, day, target, config, attemptsLeft).pool == st.pool
    ensures |DayFrom(st, day, target, config, attemptsLeft).picks| > |st.picks| ==> Select(st.pool, day, config, []).Some?
    ensures Select(st.pool, day, config, []).Some? ==>
      PicksFrom(DayFrom(st, day, target, config, attemptsLeft).picks, |st.picks|, Select(st.pool, day, config, []).value)
    decreases attemptsLeft
  {
    if Continues(st, day, target, config, attemptsLeft) {
      var s := Select(st.pool, day, config, []).value;
      var next := Advance(st, s, day, target, config);
      assert next.pool == st.pool;
      DayFromStep(st, day, target, config, attemptsLeft, s);
      DayFromFixed(next, day, target, config, attemptsLeft - 1);
      DayFromPicks(next, day, target, config, attemptsLeft - 1);
      var r := DayFrom(next, day, target, config, attemptsLeft - 1);
      PrefixAt(r.picks, next.picks, |st.picks|);
    } else {
      DayFromStop(st, day, target, config, attemptsLeft);
    }
  }

  /** Priority and difficulty mode: the day leaves the pool as it was. */
  lemma DayKeepsPool(pool: seq<WeightedSubject>, day: int, target: real, config: CycleConfig)
    requires config.focusMode != Balanced
    ensures Day(pool, day, target, config).pool == pool
  {
    DayFromFixed(DayState(0.0, pool, []), day, target, config, 3 * |pool|);
  }

  /** Priority and difficulty mode: the day leaves the pool as it was, and
      all its picks are one entry: the first eligible entry with the largest
      adjusted weight. */
  lemma DayFixed(pool: seq<WeightedSubject>, day: int, target: real, config: CycleConfig)
    requires config.focusMode != Balanced
    ensures Day(pool, day, target, config).pool == pool
    ensures Day(pool, day, target, config).picks != [] ==> exists s ::
      && WeightedChoice(pool, Eligible(pool, day, config.avoidConsecutive, []), s)
      && PicksFrom(Day(pool, day, target, config).picks, 0, s)
  {
    DayFromFixed(DayState(0.0, pool, []), day, target, config, 3 * |pool|);
    if Select(pool, day, config, []).Some? {
      SelectChoice(pool, day, config, []);
    }
  }

  /** The pool after recording the picks from position `from` on, one
      after the other. */
  function RecordFrom(pool: seq<WeightedSubject>, picks: seq<nat>, from: nat, day: int, config: CycleConfig)
    : (r: seq<WeightedSubject>)
    requires IndicesBelow(picks, |pool|)
    ensures |r| == |pool|
    decreases |picks| - from
  {
    if from >= |picks| then pool
    else RecordFrom(Record(pool, picks[from], day, config), picks, from + 1, day, config)
  }

  /** The pool a day leaves is its pool with the day's new picks recorded in
      order. */
  lemma {:induction false} DayFromRecords(st: DayState, day: int, target: real, config: CycleConfig, attemptsLeft: nat)
    requires IndicesBelow(st.picks, |st.pool|)
    ensures IndicesBelow(DayFrom(st, day, target, config, attemptsLeft).picks, |st.pool|)
    ensures DayFrom(st, day, target, config, attemptsLeft).pool
         == RecordFrom(st.pool, DayFrom(st, day, target, config, attemptsLeft).picks, |st.picks|, day, config)
    decreases attemptsLeft
  {
    hide DayFrom;
    DayFromPicks(st, day, target, config, attemptsLeft);
    if Continues(st, day, target, config, attemptsLeft) {
      var s := Select(st.pool, day, config, []).value;
      var next := Advance(st, s, day, target, config);
      DayFromStep(st, day, target, config, attemptsLeft, s);
      DayFromRecords(next, day, target, config, attemptsLeft - 1);
      DayFromPicks(next, day, target, config, attemptsLeft - 1);
      var r := DayFrom(next, day, target, config, attemptsLeft - 1);
      PrefixAt(r.picks, next.picks, |st.picks|);
    } else {
      DayFromStop(st, day, target, config, attemptsLeft);
    }
  }

  /** Recording the balanced picks from `from` on, on a pool that already
      carries the ones before, gives the pool carrying all of them. */
  lemma {:induction false} RecordFromApplied(start: seq<WeightedSubject>, picks: seq<nat>, from: nat,
                                            day: int, config: CycleConfig)
    requires config.focusMode == Balanced
    requires IndicesBelow(picks, |start|) && from <= |picks|
    ensures RecordFrom(Applied(start, picks[..from], day), picks, from, day, config) == Applied(start, picks, day)
    decreases |picks| - from
  {
    if from < |picks| {
      AppliedStep(start, picks[..from], picks[from], day);
      assert picks[..from] + [picks[from]] == picks[..from + 1];
      RecordFromApplied(start, picks, from + 1, day, config);
    } else {
      assert picks[..from] == picks;
    }
  }

  /** Balanced mode: the pool a day leaves is its start pool with every pick
      of the day recorded. */
  lemma DayCounters(pool: seq<WeightedSubject>, day: int, target: real, config: CycleConfig)
    requires config.focusMode == Balanced
    ensures Day(pool, day, target, config).pool == Applied(pool, Day(pool, day, target, config).picks, day)
  {
    DayFromRecords(DayState(0.0, pool, []), day, target, config, 3 * |pool|);
    var r := Day(pool, day, target, config);
    assert Applied(pool, r.picks[..0], day) == pool;
    RecordFromApplied(pool, r.picks, 0, day, config);
  }

  /** Balanced mode without consecutive-day avoidance never lets two entries'
      use counts drift more than one apart. */
  lemma {:induction false} DayFromSpread(st: DayState, day: int, target: real, config: CycleConfig, attemptsLeft: nat)
    requires config.focusMode == Balanced && !config.avoidConsecutive
    requires UsageWithinOne(st.pool)
    ensures UsageWithinOne(DayFrom(st, day, target, config, attemptsLeft).pool)
    decreases attemptsLeft
  {
    if Continues(st, day, target, config, attemptsLeft) {
      var s := Select(st.pool, day, config, []).value;
      DayFromStep(st, day, target, config, attemptsLeft, s);
      SelectChoice(st.pool, day, config, []);
      BalancedPickKeepsSpread(st.pool, day, s);
      DayFromSpread(Advance(st, s, day, target, config), day, target, config, attemptsLeft - 1);
    } else {
      DayFromStop(st, day, target, config, attemptsLeft);
    }
  }

  /** The inner `while` loop for one day on the rotation pool `start`:
      returns the day's hours and the pool with its counters as the loop
      leaves them. */
  method PlanDay(start: seq<WeightedSubject>, day: nat, target: real, config: CycleConfig)
    returns (dayHours: real, pool: seq<WeightedSubject>)
    requires target >= 1.0
    ensures dayHours == Day(start, day, target, config).hours
    ensures pool == Day(start, day, target, config).pool
    ensures dayHours ==
      if NothingEligible(start, day, config.avoidConsecutive) then 0.0 else DayFill(target, 3 * |start|)
  {
    pool := start;
    var tasks: seq<string> := [];
    dayHours := 0.0;
    ghost var picks: seq<nat> := [];
    var attempts := 0;
    var maxAttempts := |pool| * 3;
    while dayHours < target && |tasks| < 4 && attempts < maxAttempts
      invariant 0 <= attempts <= maxAttempts
      invariant tasks == []
      invariant DayFrom(DayState(dayHours, pool, picks), day, target, config, maxAttempts - attempts)
             == Day(start, day, target, config)
      decreases maxAttempts - attempts
    {
      ghost var p0, h0, k0, n0 := pool, dayHours, picks, maxAttempts - attempts;
      attempts := attempts + 1;
      var found, selected := SelectSubject(pool, day, config, tasks);
      if !found {
        DayFromStop(DayState(h0, p0, k0), day, target, config, n0);
        break;
      }
      DayFromStep(DayState(h0, p0, k0), day, target, config, n0, selected);
      if config.focusMode == Balanced {
        pool := Bump(pool, selected, day);
      }
      // In priority and difficulty mode the counters the source increments
      // belong to a spread copy, so the pool is left as it is.
      assert pool == Record(p0, selected, day, config);
      var remainingHours := target - dayHours;
      var taskDuration := SlotDuration(remainingHours, |tasks|);
      dayHours := dayHours + taskDuration;
      picks := picks + [selected];
      assert DayState(dayHours, pool, picks) == Advance(DayState(h0, p0, k0), selected, day, target, config);
    }
    DayFromStop(DayState(dayHours, pool, picks), day, target, config, maxAttempts - attempts);
    DayHours(start, day, target, config);
  }

  /** The rotation pool at the start of day `k` of the cycle. */
  function PoolAt(pool: seq<WeightedSubject>, target: real, config: CycleConfig, k: nat): (p: seq<WeightedSubject>)
    ensures |p| == |pool|
  {
    if k == 0 then pool
    else Day(PoolAt(pool, target, config, k - 1), k - 1, target, config).pool
  }

  lemma PoolAtNext(pool: seq<WeightedSubject>, target: real, config: CycleConfig, k: nat)
    requires k > 0
    ensures PoolAt(pool, target, config, k) == Day(PoolAt(pool, target, config, k - 1), k - 1, target, config).pool
  {
  }

  /** The fourteen days the generator pushes for the rotation pool `pool`. */
  function Cycle(pool: seq<WeightedSubject>, target: real, config: CycleConfig): seq<CycleDay>
  {
    seq(DaysInCycle, k requires 0 <= k < DaysInCycle =>
      PlannedDay(k, Day(PoolAt(pool, target, config, k), k, target, config).hours))
  }

  /** Day `k` of the cycle is planned on the pool the earlier days left. */
  lemma CycleAt(pool: seq<WeightedSubject>, target: real, config: CycleConfig, k: nat)
    requires k < DaysInCycle
    ensures |Cycle(pool, target, config)| == DaysInCycle
    ensures Cycle(pool, target, config)[k] == PlannedDay(k, Day(PoolAt(pool, target, config, k), k, target, config).hours)
    ensures PoolAt(pool, target, config, k + 1) == Day(PoolAt(pool, target, config, k), k, target, config).pool
  {
  }

  /** Each generated day carries its 1-based number, its week-day label and
      no tasks, and its hours lie between zero and half an hour over the
      target. */
  lemma CycleShape(pool: seq<WeightedSubject>, target: real, config: CycleConfig)
    requires target >= 1.0
    ensures |Cycle(pool, target, config)| == DaysInCycle
    ensures forall k :: 0 <= k < DaysInCycle ==>
      && Cycle(pool, target, config)[k].day == k + 1
      && Cycle(pool, target, config)[k].dayName == DayNames[k]
      && Cycle(pool, target, config)[k].tasks == []
      && 0.0 <= Cycle(pool, target, config)[k].totalPlannedHours < target + 0.5
  {
    DayFillBounds(target, 3 * |pool|);
    forall k | 0 <= k < DaysInCycle
      ensures 0.0 <= Cycle(pool, target, config)[k].totalPlannedHours < target + 0.5
    {
      CycleAt(pool, target, config, k);
      DayHours(PoolAt(pool, target, config, k), k, target, config);
    }
  }

  /** A day of the cycle is empty exactly when nothing in the pool it starts
      with is eligible; otherwise it is filled from the whole pool's attempts. */
  lemma CycleHours(pool: seq<WeightedSubject>, target: real, config: CycleConfig)
    requires target > 0.0
    ensures forall k :: 0 <= k < DaysInCycle ==>
      Cycle(pool, target, config)[k].totalPlannedHours ==
        if NothingEligible(PoolAt(pool, target, config, k), k, config.avoidConsecutive) then 0.0
        else DayFill(target, 3 * |pool|)
  {
    forall k | 0 <= k < DaysInCycle
      ensures Cycle(pool, target, config)[k].totalPlannedHours ==
        if NothingEligible(PoolAt(pool, target, config, k), k, config.avoidConsecutive) then 0.0
        else DayFill(target, 3 * |pool|)
    {
      CycleAt(pool, target, config, k);
      DayHours(PoolAt(pool, target, config, k), k, target, config);
    }
  }

  /** Without consecutive-day avoidance no subject is ever filtered out, so
      every day of the cycle gets the same fill. */
  lemma CycleWithoutAvoidance(pool: seq<WeightedSubject>, target: real, config: CycleConfig)
    requires target > 0.0 && !config.avoidConsecutive
    ensures forall k :: 0 <= k < DaysInCycle ==>
      Cycle(pool, target, config)[k].totalPlannedHours == DayFill(target, 3 * |pool|)
  {
    CycleHours(pool, target, config);
    forall k | 0 <= k < DaysInCycle
      ensures !NothingEligible(PoolAt(pool, target, config, k), k, false)
    {
      NothingEligibleMeans(PoolAt(pool, target, config, k), k, false);
    }
  }

  /** Priority and difficulty mode: the counters live on spread copies, so
      the pool every day starts from is the rotation pool itself. */
  lemma {:induction false} PoolAtFixed(pool: seq<WeightedSubject>, target: real, config: CycleConfig, k: nat)
    requires config.focusMode != Balanced
    ensures PoolAt(pool, target, config, k) == pool
  {
    hide Day;
    if k > 0 {
      PoolAtFixed(pool, target, config, k - 1);
      PoolAtStays(pool, target, config, k - 1);
    }
  }

  /** A priority/difficulty day hands on the pool it was given. */
  lemma PoolAtStays(pool: seq<WeightedSubject>, target: real, config: CycleConfig, k: nat)
    requires config.focusMode != Balanced
    ensures PoolAt(pool, target, config, k + 1) == PoolAt(pool, target, config, k)
  {
    PoolAtNext(pool, target, config, k + 1);
    DayKeepsPool(PoolAt(pool, target, config, k), k, target, config);
  }

  /** Priority and difficulty mode on a pool none of whose entries was used on
      the day before the cycle: no subject is ever skipped for having been
      used the day before, so every day gets the same fill. */
  lemma CycleFixedHours(pool: seq<WeightedSubject>, target: real, config: CycleConfig)
    requires target > 0.0 && config.focusMode != Balanced
    requires forall i :: 0 <= i < |pool| ==> pool[i].lastUsedDay < -1
    ensures forall k :: 0 <= k < DaysInCycle ==>
      Cycle(pool, target, config)[k].totalPlannedHours == DayFill(target, 3 * |pool|)
  {
    CycleHours(pool, target, config);
    forall k | 0 <= k < DaysInCycle
      ensures !NothingEligible(PoolAt(pool, target, config, k), k, config.avoidConsecutive)
    {
      PoolAtFixed(pool, target, config, k);
      NothingEligibleMeans(pool, k, config.avoidConsecutive);
      if |pool| > 0 {
        assert pool[0].lastUsedDay != k - 1;
      }
    }
  }

  /** One balanced day without avoidance keeps use counts within one. */
  lemma PoolAtSpreadStep(pool: seq<WeightedSubject>, target: real, config: CycleConfig, k: nat)
    requires config.focusMode == Balanced && !config.avoidConsecutive
    requires k > 0 && UsageWithinOne(PoolAt(pool, target, config, k - 1))
    ensures UsageWithinOne(PoolAt(pool, target, config, k))
  {
    hide DayFrom;
    var p := PoolAt(pool, target, config, k - 1);
    PoolAtNext(pool, target, config, k);
    DayFromSpread(DayState(0.0, p, []), k - 1, target, config, 3 * |p|);
  }

  /** Balanced mode without consecutive-day avoidance: a pool whose use
      counts start within one of each other keeps them so on every day. */
  lemma {:induction false} PoolAtSpread(pool: seq<WeightedSubject>, target: real, config: CycleConfig, k: nat)
    requires config.focusMode == Balanced && !config.avoidConsecutive
    requires UsageWithinOne(pool)
    ensures UsageWithinOne(PoolAt(pool, target, config, k))
  {
    hide Day;
    if k > 0 {
      PoolAtSpread(pool, target, config, k - 1);
      PoolAtSpreadStep(pool, target, config, k);
    }
  }

  /** The day a lone subject was last used on, at the start of day `k`, when
      it is used on day 0 and then every other day. */
  function AlternateLastUse(initial: int, k: nat): (d: int)
    ensures k > 0 ==> d == k - 1 || d == k - 2
    ensures k > 0 ==> (d == k - 1 <==> k % 2 == 1)
  {
    if k == 0 then initial else if k % 2 == 1 then k - 1 else k - 2
  }

  /** Balanced mode with consecutive-day avoidance and a single subject: the
      subject is used on `day` unless it was used the day before, and its
      last-used day moves accordingly. */
  lemma SingleSubjectDay(pool: seq<WeightedSubject>, day: nat, target: real, config: CycleConfig)
    requires target > 0.0 && config.focusMode == Balanced && config.avoidConsecutive
    requires |pool| == 1
    ensures |Day(pool, day, target, config).pool| == 1
    ensures Day(pool, day, target, config).pool[0].lastUsedDay ==
      if day > 0 && pool[0].lastUsedDay == day - 1 then pool[0].lastUsedDay else day
  {
    var d := Day(pool, day, target, config);
    NothingEligibleMeans(pool, day, true);
    DayPicksNothing(pool, day, target, config);
    DayCounters(pool, day, target, config);
    if day > 0 && pool[0].lastUsedDay == day - 1 {
      assert d.picks == [];
      assert Applied(pool, [], day) == pool;
    } else {
      DayFromPicks(DayState(0.0, pool, []), day, target, config, 3 * |pool|);
      assert d.picks[0] == 0;
      assert 0 in d.picks;
    }
  }

  /** The alternation advances by the rule of `SingleSubjectDay`. */
  lemma AlternateNext(initial: int, k: nat)
    requires initial < -1 && k > 0
    ensures AlternateLastUse(initial, k) ==
      if k - 1 > 0 && AlternateLastUse(initial, k - 1) == k - 2 then AlternateLastUse(initial, k - 1) else k - 1
  {
  }

  /** Balanced mode with consecutive-day avoidance and a single subject: the
      subject is used on day 0, skipped the next day, and so on; its last-used
      day tracks that alternation. */
  lemma {:induction false} SingleSubjectPool(pool: seq<WeightedSubject>, target: real, config: CycleConfig, k: nat)
    requires target > 0.0 && config.focusMode == Balanced && config.avoidConsecutive
    requires |pool| == 1 && pool[0].lastUsedDay < -1
    ensures PoolAt(pool, target, config, k)[0].lastUsedDay == AlternateLastUse(pool[0].lastUsedDay, k)
  {
    if k > 0 {
      SingleSubjectPool(pool, target, config, k - 1);
      PoolAtNext(pool, target, config, k);
      SingleSubjectDay(PoolAt(pool, target, config, k - 1), k - 1, target, config);
      AlternateNext(pool[0].lastUsedDay, k);
    }
  }

  /** The single-subject alternation in hours: even days are filled, odd
      days stay empty. */
  lemma SingleSubjectAlternates(pool: seq<WeightedSubject>, target: real, config: CycleConfig)
    requires target > 0.0 && config.focusMode == Balanced && config.avoidConsecutive
    requires |pool| == 1 && pool[0].lastUsedDay < -1
    ensures forall k :: 0 <= k < DaysInCycle ==>
      Cycle(pool, target, config)[k].totalPlannedHours == if k % 2 == 0 then DayFill(target, 3) else 0.0
  {
    CycleHours(pool, target, config);
    forall k | 0 <= k < DaysInCycle
      ensures NothingEligible(PoolAt(pool, target, config, k), k, true) <==> k % 2 == 1
    {
      SingleSubjectPool(pool, target, config, k);
      NothingEligibleMeans(PoolAt(pool, target, config, k), k, true);
    }
  }

  /** What the generator returns: nothing for no subjects, otherwise the
      fourteen days planned on the rotation pool of the weighed subjects. */
  function IntelligentCycle(subjects: seq<StudySubject>, levels: map<string, string>,
                            weeklyHours: real, config: CycleConfig): (cycle: seq<CycleDay>)
    ensures subjects == [] <==> cycle == []
    ensures subjects != [] ==> |cycle| == DaysInCycle
  {
    if subjects == [] then []
    else Cycle(PoolFor(WeighSubjects(subjects, levels, config.focusMode), config), DailyTarget(weeklyHours), config)
  }

  /** The rotation pool: every weighted subject when all are forced in,
      otherwise the heaviest ones after a stable sort by weight. */
  method RotationPool(weighted: seq<WeightedSubject>, config: CycleConfig) returns (pool: seq<WeightedSubject>)
    ensures pool == PoolFor(weighted, config)
  {
    if config.forceAllSubjects {
      pool := weighted;
    } else {
      var sorted := new WeightedSubject[|weighted|](i requires 0 <= i < |weighted| => weighted[i]);
      assert sorted[..] == weighted;
      SortInPlace(sorted);
      pool := sorted[..SliceEnd(sorted.Length, config.subjectsPerCycle)];
    }
  }

  /** generateIntelligentCyclePlan: no subjects give no cycle; otherwise the
      rotation pool is chosen and each of the fourteen days is filled in turn,
      the pool's counters carrying over from day to day. */
  method GenerateIntelligentCyclePlan(subjects: seq<StudySubject>, levels: map<string, string>,
                                      weeklyHours: real, config: CycleConfig)
    returns (cycle: seq<CycleDay>)
    ensures cycle == IntelligentCycle(subjects, levels, weeklyHours, config)
  {
    if |subjects| == 0 {
      return [];
    }
    var weighted := WeighSubjects(subjects, levels, config.focusMode);
    var pool := RotationPool(weighted, config);
    ghost var first := pool;
    cycle := [];
    for day := 0 to DaysInCycle
      invariant cycle == Cycle(first, DailyTarget(weeklyHours), config)[..day]
      invariant pool == PoolAt(first, DailyTarget(weeklyHours), config, day)
    {
      var targetHours := DailyTarget(weeklyHours);
      var dayHours;
      CycleAt(first, targetHours, config, day);
      TakeNext(Cycle(first, targetHours, config), day);
      dayHours, pool := PlanDay(pool, day, targetHours, config);
      cycle := cycle + [PlannedDay(day, dayHours)];
    }
    CycleAt(first, DailyTarget(weeklyHours), config, 0);
    assert cycle == Cycle(first, DailyTarget(weeklyHours), config);
  }

  /** A freshly weighed rotation pool has every counter at rest: no uses yet
      and a last-used day well before the cycle. */
  lemma FreshPool(subjects: seq<StudySubject>, levels: map<string, string>, config: CycleConfig)
    ensures forall i :: 0 <= i < |PoolFor(WeighSubjects(subjects, levels, config.focusMode), config)| ==>
      && PoolFor(WeighSubjects(subjects, levels, config.focusMode), config)[i].timesUsed == 0
      && PoolFor(WeighSubjects(subjects, levels, config.focusMode), config)[i].lastUsedDay == -3
  {
    var weighted := WeighSubjects(subjects, levels, config.focusMode);
    var pool := PoolFor(weighted, config);
    if !config.forceAllSubjects {
      PoolIsHeaviest(weighted, config);
      forall i | 0 <= i < |pool|
        ensures pool[i].timesUsed == 0 && pool[i].lastUsedDay == -3
      {
        assert pool[i] in multiset(pool);
        assert pool[i] in multiset(weighted);
        var j :| 0 <= j < |weighted| && weighted[j] == pool[i];
      }
    }
  }

  /** Unless balanced mode avoids consecutive days, every day of a generated
      cycle receives the same fill. */
  lemma GeneratedDaysEven(subjects: seq<StudySubject>, levels: map<string, string>, weeklyHours: real, config: CycleConfig)
    requires config.focusMode != Balanced || !config.avoidConsecutive
    ensures forall k :: 0 <= k < DaysInCycle ==>
      Cycle(PoolFor(WeighSubjects(subjects, levels, config.focusMode), config), DailyTarget(weeklyHours), config)[k].totalPlannedHours
        == DayFill(DailyTarget(weeklyHours), 3 * |PoolFor(WeighSubjects(subjects, levels, config.focusMode), config)|)
  {
    var pool := PoolFor(WeighSubjects(subjects, levels, config.focusMode), config);
    FreshPool(subjects, levels, config);
    if !config.avoidConsecutive {
      CycleWithoutAvoidance(pool, DailyTarget(weeklyHours), config);
    } else {
      CycleFixedHours(pool, DailyTarget(weeklyHours), config);
    }
  }

  /** Balanced mode without avoidance spreads a generated cycle's uses evenly:
      at the start of every day no subject has been used twice more often
      than another. */
  lemma GeneratedBalancedSpread(subjects: seq<StudySubject>, levels: map<string, string>, weeklyHours: real, config: CycleConfig)
    requires config.focusMode == Balanced && !config.avoidConsecutive
    ensures forall k: nat :: UsageWithinOne(PoolAt(PoolFor(WeighSubjects(subjects, levels, config.focusMode), config), DailyTarget(weeklyHours), config, k))
  {
    var pool := PoolFor(WeighSubjects(subjects, levels, config.focusMode), config);
    FreshPool(subjects, levels, config);
    forall k: nat
      ensures UsageWithinOne(PoolAt(pool, DailyTarget(weeklyHours), config, k))
    {
      PoolAtSpread(pool, DailyTarget(weeklyHours), config, k);
    }
  }

  /** Balanced mode with avoidance on a one-subject pool: a generated cycle
      plans only the even days. */
  lemma GeneratedSingleSubject(subjects: seq<StudySubject>, levels: map<string, string>, weeklyHours: real, config: CycleConfig)
    requires config.focusMode == Balanced && config.avoidConsecutive
    requires |PoolFor(WeighSubjects(subjects, levels, config.focusMode), config)| == 1
    ensures forall k :: 0 <= k < DaysInCycle ==>
      Cycle(PoolFor(WeighSubjects(subjects, levels, config.focusMode), config), DailyTarget(weeklyHours), config)[k].totalPlannedHours
        == if k % 2 == 0 then DayFill(DailyTarget(weeklyHours), 3) else 0.0
  {
    FreshPool(subjects, levels, config);
    SingleSubjectAlternates(PoolFor(WeighSubjects(subjects, levels, config.focusMode), config), DailyTarget(weeklyHours), config);
  }

  /** Entry `k` of a cycle: numbered `k + 1`, labelled with week day
      `k mod 7`, the fixed display fields, no tasks, and from zero up to half
      an hour over `target` planned. */
  predicate PlannedShape(c: CycleDay, k: nat, target: real)
  {
    && c.day == k + 1
    && c.dayName == WeekDays[k % 7]
    && c.subject == "Estudos programados" && c.color == "#8884d8" && c.focus == "Planejada" && c.priority == 1
    && c.tasks == []
    && 0.0 <= c.totalPlannedHours < target + 0.5
  }

  /** The second week repeats the labels of the first. */
  lemma DayNameAt(k: nat)
    requires k < DaysInCycle
    ensures DayNames[k] == WeekDays[k % 7]
  {
    if k < 7 {
      assert k % 7 == k;
    } else {
      assert k % 7 == k - 7;
    }
  }

  lemma CycleFields(pool: seq<WeightedSubject>, target: real, config: CycleConfig)
    requires target >= 1.0
    ensures |Cycle(pool, target, config)| == DaysInCycle
    ensures forall k :: 0 <= k < DaysInCycle ==> PlannedShape(Cycle(pool, target, config)[k], k, target)
  {
    CycleShape(pool, target, config);
    forall k | 0 <= k < DaysInCycle
      ensures PlannedShape(Cycle(pool, target, config)[k], k, target)
    {
      CycleAt(pool, target, config, k);
      DayNameAt(k);
    }
  }

  /** A generated cycle for any subjects: every entry `k` has the shape of
      `PlannedShape` for the daily target `max(1, W/7)`. */
  lemma GeneratedCycleShape(subjects: seq<StudySubject>, levels: map<string, string>, weeklyHours: real, config: CycleConfig)
    ensures forall k :: 0 <= k < |IntelligentCycle(subjects, levels, weeklyHours, config)| ==>
      PlannedShape(IntelligentCycle(subjects, levels, weeklyHours, config)[k], k, Max(1.0, weeklyHours / 7.0))
  {
    if subjects != [] {
      CycleFields(PoolFor(WeighSubjects(subjects, levels, config.focusMode), config), DailyTarget(weeklyHours), config);
    }
  }

  /** `s` is the first pool entry of the largest weight. */
  predicate HeaviestFirst(pool: seq<WeightedSubject>, s: nat)
  {
    && s < |pool|
    && forall i :: 0 <= i < |pool| ==> pool[i].weight <= pool[s].weight && (i < s ==> pool[i].weight < pool[s].weight)
  }

  /** On a pool at rest every entry is eligible and its adjusted weight is
      its weight, so the priority/difficulty choice is the first heaviest
      entry. */
  lemma RestingChoiceHeaviest(pool: seq<WeightedSubject>, day: nat, avoidConsecutive: bool, s: nat)
    requires forall i :: 0 <= i < |pool| ==> pool[i].timesUsed == 0 && pool[i].lastUsedDay == -3
    requires WeightedChoice(pool, Eligible(pool, day, avoidConsecutive, []), s)
    ensures HeaviestFirst(pool, s)
  {
    var available := Eligible(pool, day, avoidConsecutive, []);
    RestingAllEligible(pool, day, avoidConsecutive);
    forall i | 0 <= i < |pool|
      ensures pool[i].weight <= pool[s].weight && (i < s ==> pool[i].weight < pool[s].weight)
    {
      RestingEntryLighter(pool, available, s, i);
    }
  }

  /** On a pool at rest nothing is filtered out. */
  lemma RestingAllEligible(pool: seq<WeightedSubject>, day: nat, avoidConsecutive: bool)
    requires forall i :: 0 <= i < |pool| ==> pool[i].lastUsedDay == -3
    ensures forall i :: 0 <= i < |pool| ==> i in Eligible(pool, day, avoidConsecutive, [])
  {
    EligibleFilters(pool, day, avoidConsecutive, []);
    forall i | 0 <= i < |pool|
      ensures i in Eligible(pool, day, avoidConsecutive, [])
    {
      assert !Excluded(pool[i], day, avoidConsecutive, []);
    }
  }

  /** With no uses the adjusted weight is the weight itself. */
  lemma RestingEntryLighter(pool: seq<WeightedSubject>, available: seq<nat>, s: nat, i: nat)
    requires i < |pool| && i in available && WeightedChoice(pool, available, s)
    requires pool[i].timesUsed == 0 && pool[s].timesUsed == 0
    ensures pool[i].weight <= pool[s].weight && (i < s ==> pool[i].weight < pool[s].weight)
  {
    var k :| 0 <= k < |available| && available[k] == i;
    assert AdjustedWeight(pool[i]) == pool[i].weight;
    assert AdjustedWeight(pool[s]) == pool[s].weight;
  }

  /** Priority and difficulty mode on a pool at rest (no uses, last used
      three days before the cycle): the day picks something, and every pick
      is the first entry of the largest weight. */
  lemma RestingPoolPicksHeaviest(pool: seq<WeightedSubject>, day: nat, target: real, config: CycleConfig)
    requires target > 0.0 && config.focusMode != Balanced
    requires forall i :: 0 <= i < |pool| ==> pool[i].timesUsed == 0 && pool[i].lastUsedDay == -3
    ensures |pool| > 0 ==> Day(pool, day, target, config).picks != []
    ensures forall j :: 0 <= j < |Day(pool, day, target, config).picks| ==>
      HeaviestFirst(pool, Day(pool, day, target, config).picks[j])
  {
    DayFixed(pool, day, target, config);
    NothingEligibleMeans(pool, day, config.avoidConsecutive);
    if |pool| > 0 {
      assert pool[0].lastUsedDay != day - 1;
    }
    DayPicksNothing(pool, day, target, config);
    var picks := Day(pool, day, target, config).picks;
    if picks != [] {
      var s: nat :| WeightedChoice(pool, Eligible(pool, day, config.avoidConsecutive, []), s) && PicksFrom(picks, 0, s);
      RestingChoiceHeaviest(pool, day, config.avoidConsecutive, s);
    }
  }

  /** Priority and difficulty mode on a generated cycle: every day starts
      from the rotation pool itself, picks something, and picks only the
      first subject of the largest weight; consecutive-day avoidance never
      excludes it. */
  lemma GeneratedPriorityPicks(subjects: seq<StudySubject>, levels: map<string, string>, weeklyHours: real,
                               config: CycleConfig, k: nat)
    requires config.focusMode != Balanced && subjects != []
    ensures PoolAt(PoolFor(WeighSubjects(subjects, levels, config.focusMode), config), DailyTarget(weeklyHours), config, k)
         == PoolFor(WeighSubjects(subjects, levels, config.focusMode), config)
    ensures |PoolFor(WeighSubjects(subjects, levels, config.focusMode), config)| > 0 ==>
      Day(PoolFor(WeighSubjects(subjects, levels, config.focusMode), config), k, DailyTarget(weeklyHours), config).picks != []
    ensures forall j :: 0 <= j < |Day(PoolFor(WeighSubjects(subjects, levels, config.focusMode), config), k, DailyTarget(weeklyHours), config).picks| ==>
      HeaviestFirst(PoolFor(WeighSubjects(subjects, levels, config.focusMode), config),
        Day(PoolFor(WeighSubjects(subjects, levels, config.focusMode), config), k, DailyTarget(weeklyHours), config).picks[j])
  {
    var pool := PoolFor(WeighSubjects(subjects, levels, config.focusMode), config);
    FreshPool(subjects, levels, config);
    PoolAtFixed(pool, DailyTarget(weeklyHours), config, k);
    RestingPoolPicksHeaviest(pool, k, DailyTarget(weeklyHours), config);
  }
}
