/** Plan construction on the subject-assessment step
    (src/components/study/SubjectAssessment.tsx): every subject gets a
    combined weight from its self-assessed level and its priority, and the
    weighted list is expanded either into a cycle of day entries or into a
    seven-day schedule.  The form helpers record a level per subject name and
    tell whether every subject has one. */
module SubjectAssessment {
  import opened Common

  /** A subject after weighting: its name, the level recorded for it, its
      combined weight and its display colour. */
  datatype AssessedSubject = AssessedSubject(
    name: string,
    level: Option<string>,
    weight: real,
    color: string)

  const Colors: seq<string> :=
    ["#8884d8", "#82ca9d", "#ffc658", "#ff7c7c", "#8dd1e1", "#d084d0", "#ffb347", "#87d068"]

  // ---------------------------------------------------------------------
  // Form helpers
  // ---------------------------------------------------------------------

  /** The level recorded for `name`, if any. */
  function LevelFor(levels: map<string, string>, name: string): Option<string>
  {
    if name in levels then Some(levels[name]) else None
  }

  /** Records `level` for `subject`, keeping every other entry. */
  function SetLevel(levels: map<string, string>, subject: string, level: string): (r: map<string, string>)
    ensures r.Keys == levels.Keys + {subject}
    ensures subject in r && r[subject] == level
    ensures forall k :: k in levels && k != subject ==> r[k] == levels[k]
  {
    levels[subject := level]
  }

  /** Every subject has a level that is present and non-empty. */
  function IsFormComplete(subjects: seq<StudySubject>, levels: map<string, string>): (r: bool)
  {
    if subjects == [] then true
    else Truthy(LevelFor(levels, subjects[0].name)) && IsFormComplete(subjects[1..], levels)
  }

  lemma {:induction false} FormCompleteMeans(subjects: seq<StudySubject>, levels: map<string, string>)
    ensures IsFormComplete(subjects, levels) <==>
      forall i :: 0 <= i < |subjects| ==> subjects[i].name in levels && levels[subjects[i].name] != ""
  {
    if subjects != [] {
      FormCompleteMeans(subjects[1..], levels);
      if IsFormComplete(subjects, levels) {
        forall i | 0 <= i < |subjects|
          ensures subjects[i].name in levels && levels[subjects[i].name] != ""
        {
          if i > 0 {
            assert subjects[i] == subjects[1..][i - 1];
          }
        }
      } else if !Truthy(LevelFor(levels, subjects[0].name)) {
      } else {
        var j :| 0 <= j < |subjects[1..]| && !(subjects[1..][j].name in levels && levels[subjects[1..][j].name] != "");
        assert subjects[j + 1] == subjects[1..][j];
      }
    }
  }

  /** Recording a non-empty level keeps a complete form complete, and
      recording one for the only subject missing a level completes it. */
  lemma SetLevelCompletes(subjects: seq<StudySubject>, levels: map<string, string>, subject: string, level: string)
    requires level != ""
    requires forall i :: 0 <= i < |subjects| && subjects[i].name != subject ==>
      subjects[i].name in levels && levels[subjects[i].name] != ""
    ensures IsFormComplete(subjects, SetLevel(levels, subject, level))
  {
    FormCompleteMeans(subjects, SetLevel(levels, subject, level));
  }

  /** Recording an empty level for a subject's name leaves the form
      incomplete. */
  lemma ClearLevelIncomplete(subjects: seq<StudySubject>, levels: map<string, string>, i: nat)
    requires i < |subjects|
    ensures !IsFormComplete(subjects, SetLevel(levels, subjects[i].name, ""))
  {
    FormCompleteMeans(subjects, SetLevel(levels, subjects[i].name, ""));
  }

  // ---------------------------------------------------------------------
  // Combined weight
  // ---------------------------------------------------------------------

  /** The weight of a recorded level: 3, 2 and 1 for the three known levels,
      2 for a missing or unknown one. */
  function AssessmentLevelWeight(level: Option<string>): (w: real)
    ensures w == 1.0 || w == 2.0 || w == 3.0
    ensures w == 3.0 <==> level == Some("beginner")
    ensures w == 1.0 <==> level == Some("advanced")
  {
    if level == Some("beginner") then 3.0
    else if level == Some("intermediate") then 2.0
    else if level == Some("advanced") then 1.0
    else 2.0
  }

  /** `subject.priority || 1`: a missing or zero priority counts as 1. */
  function PriorityWeight(priority: Option<real>): (p: real)
    ensures p != 0.0
    ensures priority.Some? && priority.value != 0.0 ==> p == priority.value
  {
    if priority.Some? && priority.value != 0.0 then priority.value else 1.0
  }

  /** Level plus half a point per priority step above 1, rounded to one
      decimal and never below 1. */
  function CombinedWeight(level: Option<string>, priority: Option<real>): (w: real)
    ensures w >= 1.0
  {
    var combined := AssessmentLevelWeight(level) + (PriorityWeight(priority) - 1.0) * 0.5;
    Max(1.0, Round(combined * 10.0) as real / 10.0)
  }

  /** Without a priority the combined weight is the level weight. */
  lemma CombinedWeightNoPriority(level: Option<string>)
    ensures CombinedWeight(level, None) == AssessmentLevelWeight(level)
  {
    var l := AssessmentLevelWeight(level);
    assert Round(l * 10.0) == (l * 10.0).Floor;
  }

  /** For a whole-number priority p >= 1 the rounding is exact: the weight is
      level + (p - 1) / 2. */
  lemma CombinedWeightWholePriority(level: Option<string>, p: nat)
    requires p >= 1
    ensures CombinedWeight(level, Some(p as real)) == AssessmentLevelWeight(level) + (p as real - 1.0) * 0.5
  {
    var l := AssessmentLevelWeight(level);
    var tenths := l * 10.0 + (p as real - 1.0) * 5.0;
    var n := (l * 10.0).Floor + 5 * (p - 1);
    assert tenths == n as real;
    assert Round(tenths) == n;
  }

  lemma RoundMonotone(x: real, y: real)
    requires x <= y
    ensures Round(x) <= Round(y)
  {
  }

  /** A higher priority never lowers the combined weight. */
  lemma CombinedWeightMonotone(level: Option<string>, p: real, q: real)
    requires p != 0.0 && q != 0.0 && p <= q
    ensures CombinedWeight(level, Some(p)) <= CombinedWeight(level, Some(q))
  {
    var l := AssessmentLevelWeight(level);
    RoundMonotone((l + (p - 1.0) * 0.5) * 10.0, (l + (q - 1.0) * 0.5) * 10.0);
  }

  /** The weighted subjects handed to either plan generator. */
  function AssessSubjects(subjects: seq<StudySubject>, levels: map<string, string>): (r: seq<AssessedSubject>)
    ensures |r| == |subjects|
    ensures forall i :: 0 <= i < |r| ==>
      && r[i].name == subjects[i].name
      && r[i].level == LevelFor(levels, subjects[i].name)
      && r[i].weight == CombinedWeight(LevelFor(levels, subjects[i].name), subjects[i].priority)
      && r[i].color == Colors[i % |Colors|]
  {
    seq(|subjects|, i requires 0 <= i < |subjects| =>
      AssessedSubject(subjects[i].name, LevelFor(levels, subjects[i].name),
        CombinedWeight(LevelFor(levels, subjects[i].name), subjects[i].priority), Colors[i % |Colors|]))
  }

  predicate WeightsAtLeastOne(entries: seq<AssessedSubject>)
  {
    forall i :: 0 <= i < |entries| ==> entries[i].weight >= 1.0
  }

  lemma AssessedWeights(subjects: seq<StudySubject>, levels: map<string, string>)
    ensures WeightsAtLeastOne(AssessSubjects(subjects, levels))
  {
  }

  /** Names of the subjects weighing at least 2, in input order. */
  function FocusAreas(entries: seq<AssessedSubject>): (r: seq<string>)
    ensures |r| <= |entries|
  {
    if entries == [] then []
    else (if entries[0].weight >= 2.0 then [entries[0].name] else []) + FocusAreas(entries[1..])
  }

  lemma {:induction false} FocusAreasMeans(entries: seq<AssessedSubject>, name: string)
    ensures name in FocusAreas(entries) <==>
      exists i :: 0 <= i < |entries| && entries[i].name == name && entries[i].weight >= 2.0
  {
    if entries != [] {
      FocusAreasMeans(entries[1..], name);
      if exists i :: 0 <= i < |entries| && entries[i].name == name && entries[i].weight >= 2.0 {
        var i :| 0 <= i < |entries| && entries[i].name == name && entries[i].weight >= 2.0;
        if i > 0 {
          assert entries[1..][i - 1] == entries[i];
        }
      }
      if name in FocusAreas(entries[1..]) {
        var j :| 0 <= j < |entries[1..]| && entries[1..][j].name == name && entries[1..][j].weight >= 2.0;
        assert entries[j + 1] == entries[1..][j];
      }
    }
  }

  /** The focus areas of two lists one after the other are those of the
      first followed by those of the second: the filter keeps input order
      and repeats. */
  lemma {:induction false} FocusAreasAppend(a: seq<AssessedSubject>, b: seq<AssessedSubject>)
    ensures FocusAreas(a + b) == FocusAreas(a) + FocusAreas(b)
  {
    if a != [] {
      assert (a + b)[0] == a[0];
      assert (a + b)[1..] == a[1..] + b;
      FocusAreasAppend(a[1..], b);
    } else {
      assert a + b == b;
    }
  }

  // ---------------------------------------------------------------------
  // Cycle plan
  // ---------------------------------------------------------------------

  /** A subject's share of the total weight, as a percentage and as hours of
      a 40-hour week, both rounded. */
  datatype CycleShare = CycleShare(subject: AssessedSubject, percentage: int, hoursPerWeek: int)

  /** One entry of the assessment-time cycle. */
  datatype AssessmentDay = AssessmentDay(
    day: nat,
    dayName: string,
    subject: string,
    color: string,
    duration: string,
    focus: string)

  /** The cycle plan.  `data` is absent on the empty plan, which the source
      returns without a type or data field. */
  datatype CyclePlan = CyclePlan(
    data: Option<seq<CycleShare>>,
    cycle: seq<AssessmentDay>,
    totalHours: real,
    focusAreas: seq<string>)

  const CycleHoursPerWeek: real := 40.0
  const CycleLength: nat := 14

  function TotalWeight(entries: seq<AssessedSubject>): (t: real)
    ensures WeightsAtLeastOne(entries) ==> t >= |entries| as real
  {
    if entries == [] then 0.0 else TotalWeight(entries[..|entries| - 1]) + entries[|entries| - 1].weight
  }

  lemma {:induction false} WeightBelowTotal(entries: seq<AssessedSubject>, i: nat)
    requires WeightsAtLeastOne(entries) && i < |entries|
    ensures entries[i].weight <= TotalWeight(entries)
  {
    var n := |entries| - 1;
    if i < n {
      WeightBelowTotal(entries[..n], i);
    }
    assert TotalWeight(entries[..n]) >= 0.0;
  }

  function Share(e: AssessedSubject, total: real): (s: CycleShare)
    requires total > 0.0
  {
    CycleShare(e, Round(e.weight / total * 100.0), Round(e.weight / total * CycleHoursPerWeek))
  }

  /** The `data` rows of the cycle plan: each subject's weight over the total
      weight, as a rounded percentage and as rounded hours of a 40-hour week;
      every share lies between 0 and 100 percent and between 0 and 40 hours. */
  function Shares(entries: seq<AssessedSubject>): (r: seq<CycleShare>)
    requires entries != [] && WeightsAtLeastOne(entries)
    ensures |r| == |entries|
    ensures forall i :: 0 <= i < |r| ==> r[i].subject == entries[i]
    ensures forall i :: 0 <= i < |r| ==>
      && r[i].percentage == Round(entries[i].weight / TotalWeight(entries) * 100.0)
      && r[i].hoursPerWeek == Round(entries[i].weight / TotalWeight(entries) * CycleHoursPerWeek)
    ensures forall i :: 0 <= i < |r| ==>
      0 <= r[i].percentage <= 100 && 0 <= r[i].hoursPerWeek <= 40
  {
    var total := TotalWeight(entries);
    var r := seq(|entries|, i requires 0 <= i < |entries| => Share(entries[i], total));
    assert forall i :: 0 <= i < |r| ==> 0 <= r[i].percentage <= 100 && 0 <= r[i].hoursPerWeek <= 40 by {
      forall i | 0 <= i < |r|
        ensures 0 <= r[i].percentage <= 100 && 0 <= r[i].hoursPerWeek <= 40
      {
        WeightBelowTotal(entries, i);
        ShareBounds(entries[i].weight, total);
      }
    }
    r
  }

  lemma ShareBounds(w: real, total: real)
    requires 0.0 < w <= total
    ensures 0 <= Round(w / total * 100.0) <= 100
    ensures 0 <= Round(w / total * CycleHoursPerWeek) <= 40
  {
    var f := w / total;
    assert f * total == w;
    assert 0.0 < f <= 1.0;
    RoundMonotone(0.0, f * 100.0);
    RoundMonotone(f * 100.0, 100.0);
    RoundMonotone(0.0, f * CycleHoursPerWeek);
    RoundMonotone(f * CycleHoursPerWeek, 40.0);
  }

  lemma QuotientMonotone(a: real, b: real, total: real)
    requires a <= b && total > 0.0
    ensures a / total <= b / total
  {
    assert b / total - a / total == (b - a) / total;
  }

  /** A heavier subject never gets a smaller percentage or fewer hours. */
  lemma SharesMonotone(entries: seq<AssessedSubject>, i: nat, j: nat)
    requires entries != [] && WeightsAtLeastOne(entries)
    requires i < |entries| && j < |entries| && entries[i].weight <= entries[j].weight
    ensures Shares(entries)[i].percentage <= Shares(entries)[j].percentage
    ensures Shares(entries)[i].hoursPerWeek <= Shares(entries)[j].hoursPerWeek
  {
    var total := TotalWeight(entries);
    var fi := entries[i].weight / total;
    var fj := entries[j].weight / total;
    QuotientMonotone(entries[i].weight, entries[j].weight, total);
    RoundMonotone(fi * 100.0, fj * 100.0);
    RoundMonotone(fi * CycleHoursPerWeek, fj * CycleHoursPerWeek);
  }

  /** How many cycle entries a subject gets: twice its weight, rounded, and
      at least one. */
  function SubjectDays(e: AssessedSubject): (n: nat)
    ensures n >= 1
  {
    var d := Round(e.weight * 2.0);
    if d > 1 then d else 1
  }

  function Focus(weight: real): string
  {
    if weight == 3.0 then "Fundamentos"
    else if weight == 2.0 then "Revisão e Exercícios"
    else "Aprofundamento"
  }

  /** The entry pushed at overall position `k` for subject `e`. */
  function CycleEntry(k: nat, e: AssessedSubject): (d: AssessmentDay)
    ensures d.day == k % 7 && d.dayName == WeekDays[k % 7]
  {
    AssessmentDay(k % 7, WeekDays[k % 7], e.name, e.color, "2-3 horas", Focus(e.weight))
  }

  /** The subject index behind each pushed entry: subject 0 `SubjectDays`
      times, then subject 1, and so on. */
  function Slots(entries: seq<AssessedSubject>): (r: seq<nat>)
    ensures forall k :: 0 <= k < |r| ==> r[k] < |entries|
  {
    if entries == [] then []
    else Slots(entries[..|entries| - 1]) + Repeat(|entries| - 1, SubjectDays(entries[|entries| - 1]))
  }

  /** The entries pushed for the subject indices `slots`. */
  function Render(entries: seq<AssessedSubject>, slots: seq<nat>): (r: seq<AssessmentDay>)
    requires forall k :: 0 <= k < |slots| ==> slots[k] < |entries|
    ensures |r| == |slots|
  {
    seq(|slots|, k requires 0 <= k < |slots| => CycleEntry(k, entries[slots[k]]))
  }

  /** The cycle of the plan: every pushed entry, cut to the first 14. */
  function CycleDays(entries: seq<AssessedSubject>): (r: seq<AssessmentDay>)
    ensures |r| == if |Slots(entries)| <= CycleLength then |Slots(entries)| else CycleLength
  {
    var all := Render(entries, Slots(entries));
    if |all| <= CycleLength then all else all[..CycleLength]
  }

  /** Subjects come in input order: the subject index never decreases along
      the pushed entries. */
  lemma {:induction false} SlotsOrdered(entries: seq<AssessedSubject>)
    ensures forall a, b :: 0 <= a <= b < |Slots(entries)| ==> Slots(entries)[a] <= Slots(entries)[b]
  {
    if entries != [] {
      var n := |entries| - 1;
      SlotsOrdered(entries[..n]);
      forall a, b | 0 <= a <= b < |Slots(entries)|
        ensures Slots(entries)[a] <= Slots(entries)[b]
      {
        var front := Slots(entries[..n]);
        if b < |front| {
          assert Slots(entries)[a] == front[a] && Slots(entries)[b] == front[b];
        } else {
          assert Slots(entries)[b] == n;
        }
      }
    }
  }

  /** Every subject contributes exactly `SubjectDays` entries. */
  lemma {:induction false} SlotsCount(entries: seq<AssessedSubject>, i: nat)
    requires i < |entries|
    ensures multiset(Slots(entries))[i] == SubjectDays(entries[i])
  {
    hide SubjectDays, Repeat;
    var n := |entries| - 1;
    var front := Slots(entries[..n]);
    var block := Repeat(n, SubjectDays(entries[n]));
    assert Slots(entries) == front + block;
    RepeatMultiset(n, SubjectDays(entries[n]));
    assert multiset(front + block) == multiset(front) + multiset(block);
    if i < n {
      SlotsCount(entries[..n], i);
      assert entries[..n][i] == entries[i];
    } else {
      assert forall k :: 0 <= k < |front| ==> front[k] < n;
      assert i !in front;
    }
  }

  /** The total number of pushed entries before the cut. */
  function TotalDays(entries: seq<AssessedSubject>): nat
  {
    if entries == [] then 0 else TotalDays(entries[..|entries| - 1]) + SubjectDays(entries[|entries| - 1])
  }

  lemma {:induction false} SlotsLength(entries: seq<AssessedSubject>)
    ensures |Slots(entries)| == TotalDays(entries)
    ensures |Slots(entries)| >= |entries|
  {
    if entries != [] {
      SlotsLength(entries[..|entries| - 1]);
    }
  }

  /** Entry `k` of the cycle falls on week day `k mod 7` and belongs to the
      subject whose block holds position `k`; the first entry is the first
      subject's. */
  lemma CycleDaysAt(entries: seq<AssessedSubject>, k: nat)
    requires k < |CycleDays(entries)|
    ensures CycleDays(entries)[k].day == k % 7
    ensures CycleDays(entries)[k].dayName == WeekDays[k % 7]
    ensures CycleDays(entries)[k].subject == entries[Slots(entries)[k]].name
    ensures k == 0 ==> Slots(entries)[k] == 0
  {
    var slots := Slots(entries);
    assert CycleDays(entries)[k] == Render(entries, slots)[k];
    if k == 0 {
      FirstSlot(entries);
    }
  }

  /** The first pushed entry belongs to the first subject. */
  lemma FirstSlot(entries: seq<AssessedSubject>)
    requires |Slots(entries)| > 0
    ensures Slots(entries)[0] == 0
  {
    SlotsOrdered(entries);
    SlotsCount(entries, 0);
    assert 0 in multiset(Slots(entries));
  }

  lemma RenderAppend(entries: seq<AssessedSubject>, slots: seq<nat>, x: nat)
    requires forall k :: 0 <= k < |slots| ==> slots[k] < |entries|
    requires x < |entries|
    ensures Render(entries, slots + [x]) == Render(entries, slots) + [CycleEntry(|slots|, entries[x])]
  {
  }

  /** Expands the weighted subjects into cycle entries, pushing each
      subject's block in turn with a running day counter, and cuts the list
      to 14. */
  method GenerateCycleDays(entries: seq<AssessedSubject>) returns (cycle: seq<AssessmentDay>)
    ensures cycle == CycleDays(entries)
  {
    var cycleDays: seq<AssessmentDay> := [];
    var currentDay := 0;
    for idx := 0 to |entries|
      invariant cycleDays == Render(entries, Slots(entries[..idx]))
      invariant currentDay == |cycleDays|
    {
      var subject := entries[idx];
      var daysForSubject := SubjectDays(subject);
      ghost var done := Slots(entries[..idx]);
      for i := 0 to daysForSubject
        invariant cycleDays == Render(entries, done + Repeat(idx, i))
        invariant currentDay == |cycleDays|
      {
        RenderAppend(entries, done + Repeat(idx, i), idx);
        assert done + Repeat(idx, i) + [idx] == done + Repeat(idx, i + 1);
        cycleDays := cycleDays + [CycleEntry(currentDay, subject)];
        currentDay := currentDay + 1;
      }
      assert entries[..idx + 1][..idx] == entries[..idx];
    }
    assert entries[..|entries|] == entries;
    if |cycleDays| <= CycleLength {
      cycle := cycleDays;
    } else {
      cycle := cycleDays[..CycleLength];
    }
  }

  /** The cycle plan for the weighted subjects: the empty plan for none,
      otherwise the shares, the cut cycle, 40 hours and the focus areas. */
  method GenerateCyclePlan(entries: seq<AssessedSubject>) returns (plan: CyclePlan)
    requires WeightsAtLeastOne(entries)
    ensures entries == [] ==> plan == CyclePlan(None, [], 0.0, [])
    ensures entries != [] ==>
      plan == CyclePlan(Some(Shares(entries)), CycleDays(entries), CycleHoursPerWeek, FocusAreas(entries))
  {
    if |entries| == 0 {
      return CyclePlan(None, [], 0.0, []);
    }
    var cycle := GenerateCycleDays(entries);
    plan := CyclePlan(Some(Shares(entries)), cycle, CycleHoursPerWeek, FocusAreas(entries));
  }

  // ---------------------------------------------------------------------
  // Schedule plan
  // ---------------------------------------------------------------------

  /** One subject slot on a week day of the schedule. */
  datatype ScheduleEntry = ScheduleEntry(name: string, color: string, duration: string, priority: string)

  datatype WeekDaySchedule = WeekDaySchedule(day: string, subjects: seq<ScheduleEntry>)

  /** A row of the weekly-hours chart. */
  datatype WeeklyRow = WeeklyRow(subject: string, hours: int, color: string)

  datatype SchedulePlan = SchedulePlan(
    weekly: seq<WeekDaySchedule>,
    data: seq<WeeklyRow>,
    totalHours: int,
    focusAreas: seq<string>)

  function SessionOf(e: AssessedSubject): ScheduleEntry
  {
    ScheduleEntry(e.name, e.color,
      if e.weight == 3.0 then "3h" else if e.weight == 2.0 then "2h" else "1h",
      if e.weight == 3.0 then "Alta" else if e.weight == 2.0 then "Média" else "Baixa")
  }

  /** How many sessions the placement loop runs for a subject: its weight
      (at least 1) rounded up, because the integer counter runs on while it
      is below a fractional bound. */
  function Sessions(e: AssessedSubject): (n: nat)
    ensures n >= 1
    ensures e.weight >= 1.0 ==> e.weight <= n as real < e.weight + 1.0
  {
    Ceil(Max(1.0, e.weight))
  }

  /** The week day of session `i` of the subject at position `idx`. */
  function SessionDay(idx: nat, i: nat): (d: nat)
    ensures d < 7
  {
    (idx * 2 + i) % 7
  }

  /** How many of the first `count` sessions of subject `idx` fall on day `d`. */
  function Hits(idx: nat, count: nat, d: nat): nat
  {
    if count == 0 then 0 else Hits(idx, count - 1, d) + (if SessionDay(idx, count - 1) == d then 1 else 0)
  }

  /** The sessions on day `d` once the first `n` subjects are placed, in
      placement order. */
  function DaySchedule(entries: seq<AssessedSubject>, n: nat, d: nat): seq<ScheduleEntry>
    requires n <= |entries|
  {
    if n == 0 then []
    else DaySchedule(entries, n - 1, d) + Repeat(SessionOf(entries[n - 1]), Hits(n - 1, Sessions(entries[n - 1]), d))
  }

  /** The seven days of the schedule. */
  function Weekly(entries: seq<AssessedSubject>): (r: seq<WeekDaySchedule>)
    ensures |r| == 7
    ensures forall d :: 0 <= d < 7 ==> r[d].day == WeekDays[d]
  {
    seq(7, d requires 0 <= d < 7 => WeekDaySchedule(WeekDays[d], DaySchedule(entries, |entries|, d)))
  }

  /** Every session lands on exactly one day: the seven day counts add up to
      the number of sessions. */
  lemma {:induction false} HitsTotal(idx: nat, count: nat)
    ensures Hits(idx, count, 0) + Hits(idx, count, 1) + Hits(idx, count, 2) + Hits(idx, count, 3)
      + Hits(idx, count, 4) + Hits(idx, count, 5) + Hits(idx, count, 6) == count
  {
    if count > 0 {
      HitsTotal(idx, count - 1);
    }
  }

  /** A subject appears on day `d` exactly when one of its sessions is
      placed at `(2 * idx + i) mod 7 == d`. */
  lemma {:induction false} HitsPositive(idx: nat, count: nat, d: nat)
    ensures Hits(idx, count, d) > 0 <==> exists i :: 0 <= i < count && SessionDay(idx, i) == d
  {
    if count > 0 {
      HitsPositive(idx, count - 1, d);
      if exists i :: 0 <= i < count && SessionDay(idx, i) == d {
        var i :| 0 <= i < count && SessionDay(idx, i) == d;
        if i < count - 1 {
          assert exists j :: 0 <= j < count - 1 && SessionDay(idx, j) == d;
        }
      }
    }
  }

  lemma HitsNext(idx: nat, count: nat, d: nat)
    ensures Hits(idx, count + 1, d) == Hits(idx, count, d) + (if SessionDay(idx, count) == d then 1 else 0)
  {
  }

  /** Placing session `count` adds one copy to its day's list only. */
  lemma RepeatHitsNext(x: ScheduleEntry, idx: nat, count: nat)
    ensures forall d :: 0 <= d < 7 ==>
      Repeat(x, Hits(idx, count + 1, d)) == Repeat(x, Hits(idx, count, d)) + (if d == SessionDay(idx, count) then [x] else [])
  {
    forall d | 0 <= d < 7
      ensures Repeat(x, Hits(idx, count + 1, d)) == Repeat(x, Hits(idx, count, d)) + (if d == SessionDay(idx, count) then [x] else [])
    {
      HitsNext(idx, count, d);
    }
  }

  /** The chart name: at most ten characters, then "...". */
  function ShortName(name: string): (r: string)
    ensures |name| <= 10 ==> r == name
    ensures |name| > 10 ==> |r| == 13 && r[..10] == name[..10] && r[10..] == "..."
  {
    if |name| > 10 then name[..10] + "..." else name
  }

  /** Weekly hours by weight: 9 for 3, 6 for 2, 3 otherwise. */
  function WeeklyHours(weight: real): (h: int)
    ensures h == 3 || h == 6 || h == 9
  {
    if weight == 3.0 then 9 else if weight == 2.0 then 6 else 3
  }

  function Rows(entries: seq<AssessedSubject>): (r: seq<WeeklyRow>)
    ensures |r| == |entries|
  {
    seq(|entries|, i requires 0 <= i < |entries| =>
      WeeklyRow(ShortName(entries[i].name), WeeklyHours(entries[i].weight), entries[i].color))
  }

  function SumHours(rows: seq<WeeklyRow>): int
  {
    if rows == [] then 0 else SumHours(rows[..|rows| - 1]) + rows[|rows| - 1].hours
  }

  /** The schedule's total: the rows' hours added up, 0 without rows. */
  function TotalScheduleHours(rows: seq<WeeklyRow>): int
  {
    if |rows| > 0 then SumHours(rows) else 0
  }

  /** Every subject adds 3 to 9 hours to the schedule's total. */
  lemma {:induction false} ScheduleHoursBounds(entries: seq<AssessedSubject>)
    ensures 3 * |entries| <= TotalScheduleHours(Rows(entries)) <= 9 * |entries|
  {
    SumHoursBounds(entries);
  }

  lemma {:induction false} SumHoursBounds(entries: seq<AssessedSubject>)
    ensures 3 * |entries| <= SumHours(Rows(entries)) <= 9 * |entries|
  {
    if entries != [] {
      var n := |entries| - 1;
      SumHoursBounds(entries[..n]);
      assert Rows(entries)[..n] == Rows(entries[..n]);
    }
  }

  /** The inner loop for the subject at position `index`: adds its sessions
      to the days `(2 * index + i) mod 7`, one after the other. */
  method PlaceSessions(schedule: array<seq<ScheduleEntry>>, subject: AssessedSubject, index: nat)
    requires schedule.Length == 7
    modifies schedule
    ensures forall d :: 0 <= d < 7 ==>
      schedule[d] == old(schedule[d]) + Repeat(SessionOf(subject), Hits(index, Sessions(subject), d))
  {
    var sessionsPerWeek := Max(1.0, subject.weight);
    var i := 0;
    while (i as real) < sessionsPerWeek
      invariant 0 <= i <= Sessions(subject)
      invariant forall d :: 0 <= d < 7 ==>
        schedule[d] == old(schedule[d]) + Repeat(SessionOf(subject), Hits(index, i, d))
      decreases Sessions(subject) - i
    {
      var dayIndex := (index * 2 + i) % 7;
      RepeatHitsNext(SessionOf(subject), index, i);
      schedule[dayIndex] := schedule[dayIndex] + [SessionOf(subject)];
      i := i + 1;
    }
    assert i == Sessions(subject);
  }

  /** Places every subject's sessions on the seven-day schedule and builds
      the weekly-hours rows. */
  method GenerateSchedulePlan(entries: seq<AssessedSubject>) returns (plan: SchedulePlan)
    ensures plan == SchedulePlan(Weekly(entries), Rows(entries), TotalScheduleHours(Rows(entries)), FocusAreas(entries))
  {
    var schedule := new seq<ScheduleEntry>[7](_ => []);
    for index := 0 to |entries|
      invariant forall d :: 0 <= d < 7 ==> schedule[d] == DaySchedule(entries, index, d)
    {
      PlaceSessions(schedule, entries[index], index);
    }
    var weekly := seq(7, d requires 0 <= d < 7 reads schedule => WeekDaySchedule(WeekDays[d], schedule[d]));
    var rows := Rows(entries);
    plan := SchedulePlan(weekly, rows, TotalScheduleHours(rows), FocusAreas(entries));
  }

  // ---------------------------------------------------------------------
  // Generating the plan
  // ---------------------------------------------------------------------

  datatype GeneratedPlan = CycleResult(cyclePlan: CyclePlan) | ScheduleResult(schedulePlan: SchedulePlan)

  /** Weighs the subjects and builds the cycle plan when the chosen type is
      "cycle", the schedule plan otherwise. */
  method GenerateStudyPlan(subjects: seq<StudySubject>, levels: map<string, string>, planType: string)
    returns (plan: GeneratedPlan)
    ensures planType == "cycle" <==> plan.CycleResult?
    ensures plan.CycleResult? && subjects == [] ==> plan.cyclePlan == CyclePlan(None, [], 0.0, [])
    ensures plan.CycleResult? && subjects != [] ==>
      plan.cyclePlan == CyclePlan(Some(Shares(AssessSubjects(subjects, levels))),
        CycleDays(AssessSubjects(subjects, levels)), CycleHoursPerWeek, FocusAreas(AssessSubjects(subjects, levels)))
    ensures plan.ScheduleResult? ==>
      plan.schedulePlan == SchedulePlan(Weekly(AssessSubjects(subjects, levels)), Rows(AssessSubjects(subjects, levels)),
        TotalScheduleHours(Rows(AssessSubjects(subjects, levels))), FocusAreas(AssessSubjects(subjects, levels)))
  {
    var weighted := AssessSubjects(subjects, levels);
    AssessedWeights(subjects, levels);
    if planType == "cycle" {
      var p := GenerateCyclePlan(weighted);
      plan := CycleResult(p);
    } else {
      var p := GenerateSchedulePlan(weighted);
      plan := ScheduleResult(p);
    }
  }
}
