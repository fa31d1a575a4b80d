/** Subject weighting used by the 14-day cycle generator of the study planner
    (src/components/StudyPlanner.tsx, generateIntelligentCyclePlan). */
module CycleWeights {
  import opened Common

  datatype FocusMode = Balanced | Priority | Difficulty

  /** The generator's configuration.  `rotationIntensity` is carried but never
      read. */
  datatype CycleConfig = CycleConfig(
    forceAllSubjects: bool,
    subjectsPerCycle: int,
    rotationIntensity: real,
    focusMode: FocusMode,
    avoidConsecutive: bool)

  /** A subject spread into a fresh object with its cycle weight and the two
      counters the generator mutates while it fills the days. */
  datatype WeightedSubject = WeightedSubject(
    subject: StudySubject,
    weight: real,
    timesUsed: nat,
    lastUsedDay: int)

  /** The recorded level of a subject, `subjectLevels[name] || 'intermediate'`. */
  function LevelOf(levels: map<string, string>, name: string): string
  {
    if name in levels && levels[name] != "" then levels[name] else "intermediate"
  }

  /** Base weight of a level: 3 for beginner, 2 for intermediate, 1 for any
      other string. */
  function LevelWeight(level: string): real
  {
    if level == "beginner" then 3.0 else if level == "intermediate" then 2.0 else 1.0
  }

  /** Multiplier of the focus mode. */
  function FocusFactor(mode: FocusMode): real
  {
    match mode
    case Balanced => 1.0
    case Priority => 1.5
    case Difficulty => 2.0
  }

  /** The cycle weight of the subject called `name`. */
  function SubjectWeight(levels: map<string, string>, name: string, mode: FocusMode): (w: real)
    ensures w >= 1.0
  {
    LevelWeight(LevelOf(levels, name)) * FocusFactor(mode)
  }

  /** The weight table: a beginner subject weighs 3, an intermediate or
      unassessed one (missing or empty level) 2, anything else 1, times 1.5 in
      priority mode and 2 in difficulty mode. */
  lemma WeightTable(levels: map<string, string>, name: string, mode: FocusMode)
    ensures var f := (if mode == Priority then 1.5 else if mode == Difficulty then 2.0 else 1.0);
      && (name in levels && levels[name] == "beginner" ==> SubjectWeight(levels, name, mode) == 3.0 * f)
      && (name !in levels || levels[name] in {"", "intermediate"} ==> SubjectWeight(levels, name, mode) == 2.0 * f)
      && (name in levels && levels[name] !in {"", "beginner", "intermediate"} ==>
            SubjectWeight(levels, name, mode) == f)
  {
  }

  /** Weight monotonicity: under one focus mode a beginner subject weighs
      more than any subject that is not a beginner, and a subject whose level
      is unassessed or intermediate weighs at least as much as any subject that
      is not a beginner. */
  lemma WeightMonotone(levels: map<string, string>, a: string, b: string, mode: FocusMode)
    ensures LevelOf(levels, a) == "beginner" && LevelOf(levels, b) != "beginner" ==>
      SubjectWeight(levels, a, mode) > SubjectWeight(levels, b, mode)
    ensures LevelOf(levels, a) == "intermediate" && LevelOf(levels, b) != "beginner" ==>
      SubjectWeight(levels, a, mode) >= SubjectWeight(levels, b, mode)
  {
    var f := FocusFactor(mode);
    assert f >= 1.0;
    if LevelOf(levels, b) != "beginner" {
      assert LevelWeight(LevelOf(levels, b)) <= 2.0;
      if LevelOf(levels, a) == "beginner" {
        assert 3.0 * f > 2.0 * f;
      }
    }
  }

  /** The `subjects.map(...)` at the start of the generator: every subject is
      spread into a fresh weighted record whose counters start at 0 and -3. */
  function WeighSubjects(subjects: seq<StudySubject>, levels: map<string, string>, mode: FocusMode)
    : (r: seq<WeightedSubject>)
    ensures |r| == |subjects|
    ensures forall i :: 0 <= i < |r| ==>
      && r[i].subject == subjects[i]
      && r[i].weight == SubjectWeight(levels, subjects[i].name, mode)
      && r[i].timesUsed == 0
      && r[i].lastUsedDay == -3
  {
    seq(|subjects|, i requires 0 <= i < |subjects| =>
      WeightedSubject(subjects[i], SubjectWeight(levels, subjects[i].name, mode), 0, -3))
  }
}
