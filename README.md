# Study planner core in Dafny

A model of the computing core of a study-planning web application. Users
choose subjects, rate how well they know each one, and get a study plan. A
Pomodoro timer logs study sessions, and a dialog shows statistics over that
log. Four parts are modelled:

- **The 14-day cycle generator** of the planner page (`generateIntelligentCyclePlan`,
  modules `CycleWeights`, `WeightSort`, `CycleSelect`, `CycleGenerator`), and the
  cycle regeneration that writes a new cycle into the current plan and the saved
  plans (module `StudyPlanner`). Each subject is weighted by its level and the
  focus mode. A rotation pool is chosen: all subjects, or the heaviest ones after a
  stable in-place sort. Then each of the 14 days is filled greedily by a bounded
  loop that filters the pool, selects one subject and adds a slot of 0.5 to 2.5
  hours. Only each day's total survives into the output.
- **Plan construction at assessment time** (module `SubjectAssessment`). A
  combined weight is built from level and priority. A cycle plan expands the
  subjects into day entries labelled `k mod 7` and cuts them to 14. A schedule
  plan scatters each subject's sessions over the week at `(2·index + i) mod 7`.
  The form helpers record a level per subject and tell whether every subject
  has one.
- **The Pomodoro timer** of the study-session page (module `SessionTimer`). It is
  a class whose fields are the page's state, with `StartTimer`, `PauseTimer`,
  `ResumeTimer`, `StopTimer`, `HandleTimerSettingChange` and `Tick` methods.
  Each method is proved equal to a transition function on a `TimerState` value.
  The lemmas are about those functions: a study interval ends in a break whose
  length follows the long-break rule, a break ends the run, and a stop clears
  the state.
- **The progress statistics** (module `StudyProgress`). They are sums, filters
  and counts over the session log. The subject and topic dictionaries are built
  in place, session by session. The module also gives the chart rows and the
  last-20 history. "Today" and "this week" are predicates the caller supplies.

Module `Common` holds the shared record shapes and JavaScript's `Math.round`,
`Math.ceil`, `Math.min` and `Math.max` on exact reals.

## What the code does, as opposed to what it appears to intend

The model follows the code. It does not follow the generator's documented design
or the comments in the code. Where they differ:

- The per-day `tasks` list (src/components/StudyPlanner.tsx:166) is never appended
  to. So the four-slot cap and the same-day-duplicate filter never fire, and the
  slot length always divides the remainder by 4. The same subject may fill a
  whole day.
- The daily target `max(1, min(max(1.5, 2W/14), W/7))` is always `max(1, W/7)`
  (`CycleGenerator.DailyTarget`). The 1.5-hour floor has no effect.
- In priority and difficulty mode the selected subject is a spread copy. Its
  `timesUsed++`/`lastUsedDay = day` never reach the pool, so the decaying score
  never decays. Every pick is the first subject of the largest weight, and
  consecutive-day avoidance never excludes it (`CycleGenerator.GeneratedPriorityPicks`).
- In balanced mode, a tie on use count goes to a strictly heavier subject, and
  otherwise to the earlier one in the pool.
- Balanced mode with consecutive-day avoidance and a single subject does not
  schedule every day. Every second day finds nothing eligible and gets 0 hours
  (`CycleGenerator.GeneratedSingleSubject`).
- A subject's own `priority` is not read by the planner's weighting. Only the
  assessment page combines it into the weight.

Numbers are exact `real`s; floating-point rounding is not modelled (see
"Left out"). `Math.round(x)` is `floor(x + 1/2)`.
JavaScript's `slice(0, k)` with a negative `k` and its `%` (sign of the dividend,
NaN for a zero divisor) are modelled as they behave, so there is no precondition
on `subjectsPerCycle` or `sessionsUntilLongBreak`.

## Model

| member | source | states |
|---|---|---|
| `CycleWeights.WeightTable` | src/components/StudyPlanner.tsx:137-147 | a recorded `beginner` weighs 3, a missing, empty or `intermediate` level 2, any other string 1; times 1.5 in priority mode and 2 in difficulty mode |
| `CycleWeights.WeightMonotone` | src/components/StudyPlanner.tsx:139-147 | under one focus mode and for any level map, a beginner subject weighs strictly more than any non-beginner one, and an intermediate or unassessed subject at least as much as any non-beginner one |
| `CycleWeights.WeighSubjects` | src/components/StudyPlanner.tsx:137-154 | one fresh record per subject, in order, carrying the subject unchanged, its weight, `timesUsed = 0` and `lastUsedDay = -3` |
| `WeightSort.SortInPlace` | src/components/StudyPlanner.tsx:157 | the in-place sort leaves the array equal to the stable descending-weight sort of its old contents |
| `WeightSort.InsertInPlace` | src/components/StudyPlanner.tsx:157 | one shifting step inserts `a[i]` into the sorted prefix and leaves the rest of the array alone |
| `WeightSort.SortSorted` | src/components/StudyPlanner.tsx:157 | the sorted pool is non-increasing by weight |
| `WeightSort.SortPermutes` | src/components/StudyPlanner.tsx:157 | the sort is a permutation of its input |
| `WeightSort.SortStable` | src/components/StudyPlanner.tsx:157 | subjects of equal weight keep their input order |
| `WeightSort.PoolFor` | src/components/StudyPlanner.tsx:157 | the pool is every weighted subject when `forceAllSubjects`, else `slice(0, subjectsPerCycle)` of the sorted list, with JavaScript's length rule |
| `WeightSort.PoolIsHeaviest` | src/components/StudyPlanner.tsx:157 | without `forceAllSubjects`, the pool is a sub-multiset of the weighted subjects and no subject left out weighs more than one kept |
| `CycleSelect.EligibleFilters` | src/components/StudyPlanner.tsx:180-193 | the filter keeps, in pool order, exactly the subjects neither used the day before under `avoidConsecutive` nor already among the day's tasks |
| `CycleSelect.EligibleIffSome` | src/components/StudyPlanner.tsx:180-198 | the filter comes back empty exactly when no subject is eligible |
| `CycleSelect.NothingEligibleMeans` | src/components/StudyPlanner.tsx:180-198 | a day can start with nothing eligible only under `avoidConsecutive`, after day 0, when every pool subject was used the day before, and then it does |
| `CycleSelect.SelectBalanced` | src/components/StudyPlanner.tsx:203-207 | the balanced `reduce` loop returns the fold `BalancedIndex` |
| `CycleSelect.BalancedIndexChoice` | src/components/StudyPlanner.tsx:203-207 | the balanced pick is eligible, no eligible subject has fewer uses or equal uses and more weight, and every earlier eligible subject loses to it |
| `CycleSelect.SelectWeighted` | src/components/StudyPlanner.tsx:209-213 | the priority/difficulty `reduce` loop returns the fold `WeightedIndex` |
| `CycleSelect.WeightedIndexChoice` | src/components/StudyPlanner.tsx:209-213 | the priority/difficulty pick has the largest `weight / max(1, timesUsed + 1)` among eligible subjects, and every earlier one has a strictly smaller score |
| `CycleSelect.SelectSpec` | src/components/StudyPlanner.tsx:180-214 | an attempt finds nothing exactly when the filter is empty, and what it finds is eligible |
| `CycleSelect.SelectChoice` | src/components/StudyPlanner.tsx:180-214 | an attempt's pick is the balanced or the weighted choice over the eligible subjects, by focus mode |
| `CycleSelect.SelectSubject` | src/components/StudyPlanner.tsx:180-214 | one attempt of the loop: filter, then the focus mode's reduce, equal to `Select` |
| `CycleGenerator.DailyTarget` | src/components/StudyPlanner.tsx:131-168 | the per-day target equals `max(1, W/7)` and is at least 1 |
| `CycleGenerator.SlotDuration` | src/components/StudyPlanner.tsx:217-221 | every slot lasts between 0.5 and 2.5 hours, and no longer than the remainder unless it is the 0.5 minimum |
| `CycleGenerator.DayFillBounds` | src/components/StudyPlanner.tsx:176-232 | a day's fill is ≥ 0, below target + 0.5, at least `min(target, 0.5·attempts)`, and at least 0.5 when any attempt is allowed |
| `CycleGenerator.DayHours` | src/components/StudyPlanner.tsx:166-233 | a day's hours are 0 when nothing is eligible at its start, otherwise the fill of the target in `3·|pool|` attempts, whichever subjects are picked |
| `CycleGenerator.DayPicksNothing` | src/components/StudyPlanner.tsx:174-198 | a day picks nothing exactly when the pool is empty or nothing is eligible at its start |
| `CycleGenerator.DayFixed` | src/components/StudyPlanner.tsx:209-229 | in priority/difficulty mode a day leaves the pool as it was and every pick of the day is the same weighted choice |
| `CycleGenerator.DayCounters` | src/components/StudyPlanner.tsx:203-229 | in balanced mode the pool a day leaves is its start pool with each pick's `timesUsed` incremented and `lastUsedDay` set to the day |
| `CycleGenerator.BalancedPickKeepsSpread` | src/components/StudyPlanner.tsx:203-207 | without avoidance, recording the balanced pick keeps every two use counts within one of each other |
| `CycleGenerator.PlanDay` | src/components/StudyPlanner.tsx:166-233 | the inner `while` loop returns the day's hours and pool as `Day` gives them, and hours 0 or the fill of the target |
| `CycleGenerator.CycleHours` | src/components/StudyPlanner.tsx:164-250 | day `k` of a cycle has 0 hours exactly when nothing is eligible in the pool it starts with, otherwise the common fill |
| `CycleGenerator.CycleShape` | src/components/StudyPlanner.tsx:237-249 | a cycle has 14 entries; entry `k` has `day = k + 1`, the k-th label, no tasks and hours in [0, target + 0.5) |
| `CycleGenerator.DayNameAt` | src/components/StudyPlanner.tsx:160 | the second week repeats the first week's labels: label `k` is week day `k mod 7` |
| `CycleGenerator.CycleFields` | src/components/StudyPlanner.tsx:237-249 | every entry of a cycle carries the fixed subject, colour, focus and priority and satisfies the shape above |
| `CycleGenerator.IntelligentCycle` | src/components/StudyPlanner.tsx:124-130 | the generator's result is empty exactly when there are no subjects, otherwise it has 14 entries |
| `CycleGenerator.GeneratedCycleShape` | src/components/StudyPlanner.tsx:159-249 | every generated entry `k` is day `k + 1`, week day `k mod 7`, has the fixed display fields and `tasks = []`, and plans between 0 and `max(1, W/7) + 0.5` hours |
| `CycleGenerator.RotationPool` | src/components/StudyPlanner.tsx:157 | copies the weighted subjects into an array, sorts it in place and slices it, giving `PoolFor` |
| `CycleGenerator.GenerateIntelligentCyclePlan` | src/components/StudyPlanner.tsx:124-253 | the day-by-day generator, its pool carried from day to day, returns `IntelligentCycle` |
| `CycleGenerator.FreshPool` | src/components/StudyPlanner.tsx:148-157 | every rotation-pool subject starts with no uses and last used on day -3 |
| `CycleGenerator.GeneratedDaysEven` | src/components/StudyPlanner.tsx:164-233 | unless balanced mode avoids consecutive days, every generated day has the same hours |
| `CycleGenerator.GeneratedBalancedSpread` | src/components/StudyPlanner.tsx:202-229 | balanced mode without avoidance keeps all use counts within one of each other at the start of every day |
| `CycleGenerator.SingleSubjectAlternates` | src/components/StudyPlanner.tsx:180-198 | balanced mode with avoidance on a one-subject pool at rest fills the even days and leaves the odd days at 0 hours |
| `CycleGenerator.GeneratedSingleSubject` | src/components/StudyPlanner.tsx:180-229 | the same alternation for a generated one-subject cycle |
| `CycleGenerator.RestingChoiceHeaviest` | src/components/StudyPlanner.tsx:209-213 | on a pool at rest the priority/difficulty choice is the first subject of the largest weight |
| `CycleGenerator.GeneratedPriorityPicks` | src/components/StudyPlanner.tsx:209-229 | in priority/difficulty mode every generated day starts from the rotation pool itself, picks something, and picks only the first heaviest subject |
| `StudyPlanner.ReplaceById` | src/components/StudyPlanner.tsx:381 | the saved list keeps its length and order; an entry is replaced exactly when its id equals the updated plan's |
| `StudyPlanner.ReplaceByIdMatches` | src/components/StudyPlanner.tsx:381 | after the replacement, an entry has the updated plan's id exactly when it is the updated plan |
| `StudyPlanner.ReplaceByIdIdempotent` | src/components/StudyPlanner.tsx:381 | saving the same plan twice gives the same list as saving it once |
| `StudyPlanner.ReplaceByIdAbsent` | src/components/StudyPlanner.tsx:381 | a plan whose id is not in the list leaves the list unchanged |
| `StudyPlanner.Planner.constructor` | src/components/StudyPlanner.tsx:61-64 | the planner starts on the context's plan, the stored plans, the subjects and their levels |
| `StudyPlanner.Planner.RegenerateCycle` | src/components/StudyPlanner.tsx:369-383 | with no plan nothing changes; otherwise the plan keeps every field but `cycle`, which becomes the generated cycle for the current subjects and the plan's total hours, and the saved plans are updated by `ReplaceById` |
| `SubjectAssessment.SetLevel` | src/components/study/SubjectAssessment.tsx:38-43 | a level change sets that subject's key and leaves every other key unchanged |
| `SubjectAssessment.FormCompleteMeans` | src/components/study/SubjectAssessment.tsx:45-47 | the form is complete exactly when every subject's name maps to a non-empty level |
| `SubjectAssessment.SetLevelCompletes` | src/components/study/SubjectAssessment.tsx:38-47 | setting a non-empty level for the only subject lacking one completes the form |
| `SubjectAssessment.ClearLevelIncomplete` | src/components/study/SubjectAssessment.tsx:38-47 | setting an empty level for any listed subject leaves the form incomplete |
| `SubjectAssessment.AssessmentLevelWeight` | src/components/study/SubjectAssessment.tsx:120 | the level weight is 3 exactly for `beginner`, 1 exactly for `advanced`, otherwise 2 |
| `SubjectAssessment.PriorityWeight` | src/components/study/SubjectAssessment.tsx:121 | a missing or zero priority counts as 1; any other priority is kept |
| `SubjectAssessment.CombinedWeight` | src/components/study/SubjectAssessment.tsx:124-129 | the combined weight is never below 1 |
| `SubjectAssessment.CombinedWeightNoPriority` | src/components/study/SubjectAssessment.tsx:119-129 | without a priority the combined weight is the level weight |
| `SubjectAssessment.CombinedWeightWholePriority` | src/components/study/SubjectAssessment.tsx:124-129 | for a whole priority p ≥ 1 the rounding is exact: weight = level + (p − 1)/2 |
| `SubjectAssessment.CombinedWeightMonotone` | src/components/study/SubjectAssessment.tsx:124-129 | a higher priority never lowers the combined weight |
| `SubjectAssessment.AssessSubjects` | src/components/study/SubjectAssessment.tsx:119-132 | one weighted entry per subject, in order, with its recorded level, combined weight and colour `colors[i mod 8]` |
| `SubjectAssessment.FocusAreasMeans` | src/components/study/SubjectAssessment.tsx:82 | a name is a focus area exactly when some subject of that name weighs at least 2 |
| `SubjectAssessment.FocusAreasAppend` | src/components/study/SubjectAssessment.tsx:82 | the focus areas of two lists in a row are those of the first followed by those of the second, so input order and repeats are kept |
| `SubjectAssessment.Shares` | src/components/study/SubjectAssessment.tsx:52-57 | one share per subject, in order: its weight over the total weight as a rounded percentage and as rounded hours of a 40-hour week, each between 0 and 100 percent and between 0 and 40 hours |
| `SubjectAssessment.SharesMonotone` | src/components/study/SubjectAssessment.tsx:52-57 | a subject that weighs no more than another never gets a larger percentage or more hours |
| `SubjectAssessment.SubjectDays` | src/components/study/SubjectAssessment.tsx:63 | every subject gets at least one cycle entry |
| `SubjectAssessment.CycleEntry` | src/components/study/SubjectAssessment.tsx:65-72 | the entry at overall position `k` has `day = k mod 7` and week-day label `k mod 7` |
| `SubjectAssessment.SlotsOrdered` | src/components/study/SubjectAssessment.tsx:62-75 | subjects contribute their entries in input order |
| `SubjectAssessment.SlotsCount` | src/components/study/SubjectAssessment.tsx:62-75 | subject `i` contributes exactly `max(1, round(2·weight))` entries |
| `SubjectAssessment.SlotsLength` | src/components/study/SubjectAssessment.tsx:62-75 | the entries before the cut are as many as the subjects' day counts added up, and at least one per subject |
| `SubjectAssessment.CycleDays` | src/components/study/SubjectAssessment.tsx:80 | the returned cycle is the first 14 entries, or all of them when there are fewer |
| `SubjectAssessment.CycleDaysAt` | src/components/study/SubjectAssessment.tsx:59-80 | entry `k` of the cycle falls on week day `k mod 7` and belongs to the subject whose block holds position `k`; the first belongs to the first subject |
| `SubjectAssessment.GenerateCycleDays` | src/components/study/SubjectAssessment.tsx:59-80 | the nested push loops with a running day counter produce `CycleDays` |
| `SubjectAssessment.GenerateCyclePlan` | src/components/study/SubjectAssessment.tsx:49-84 | the empty plan for no subjects; otherwise the shares, the cut cycle, 40 hours and the focus areas |
| `SubjectAssessment.Sessions` | src/components/study/SubjectAssessment.tsx:90-92 | the integer loop runs `ceil(max(1, weight))` times, between the weight and the weight + 1 |
| `SubjectAssessment.Weekly` | src/components/study/SubjectAssessment.tsx:87 | the schedule has exactly 7 days, labelled Monday to Sunday |
| `SubjectAssessment.HitsTotal` | src/components/study/SubjectAssessment.tsx:92-93 | each session lands on exactly one day, so the seven day counts add up to the sessions |
| `SubjectAssessment.HitsPositive` | src/components/study/SubjectAssessment.tsx:92-93 | a subject is on day `d` exactly when one of its sessions `i` has `(2·idx + i) mod 7 = d` |
| `SubjectAssessment.PlaceSessions` | src/components/study/SubjectAssessment.tsx:89-101 | the inner loop appends to each day exactly that subject's sessions falling on it |
| `SubjectAssessment.ShortName` | src/components/study/SubjectAssessment.tsx:104 | names of up to 10 characters are kept; longer ones become their first 10 characters and "..." |
| `SubjectAssessment.WeeklyHours` | src/components/study/SubjectAssessment.tsx:105 | weekly hours are 9, 6 or 3 |
| `SubjectAssessment.ScheduleHoursBounds` | src/components/study/SubjectAssessment.tsx:103-113 | the schedule total lies between 3 and 9 hours per subject, so it is 0 with no subjects |
| `SubjectAssessment.GenerateSchedulePlan` | src/components/study/SubjectAssessment.tsx:86-116 | the placement loops give the 7-day `Weekly` schedule, the chart rows, their total and the focus areas |
| `SubjectAssessment.GenerateStudyPlan` | src/components/study/SubjectAssessment.tsx:118-141 | plan type "cycle" gives the whole cycle plan of the weighted subjects (shares, cycle, 40 hours, focus areas; the empty plan for no subjects), any other type the whole schedule plan (week, chart rows, total hours, focus areas) |
| `SessionTimer.GetSetting` | src/pages/StudySessionPage.tsx:36-44 | every field reads back a value of its own kind |
| `SessionTimer.SetSetting` | src/pages/StudySessionPage.tsx:115-120 | a settings change sets exactly one field and leaves the others unchanged |
| `SessionTimer.SetSettingSame` | src/pages/StudySessionPage.tsx:115-120 | writing back a field's own value changes nothing |
| `SessionTimer.IsLongBreak` | src/pages/StudySessionPage.tsx:129 | for a positive period, a long break comes exactly when `(completed + 1) mod period = 0` |
| `SessionTimer.LongBreakPeriodic` | src/pages/StudySessionPage.tsx:129 | long breaks recur every `sessionsUntilLongBreak` completions; with a period of 1 every break is long |
| `SessionTimer.DefaultLongBreaks` | src/pages/StudySessionPage.tsx:36-44 | with the default settings the 4th, 8th, … completion is followed by a long break |
| `SessionTimer.BreakLength` | src/pages/StudySessionPage.tsx:129-130 | the break is the long or the short break time |
| `SessionTimer.ElapsedMinutes` | src/pages/StudySessionPage.tsx:98 | a stop at or after the start gives a non-negative number of whole minutes |
| `SessionTimer.Countdown` | src/pages/StudySessionPage.tsx:153 | a running countdown at `t` seconds reaches its last second after `t − 1` ticks, changing nothing else |
| `SessionTimer.StudyIntervalEnds` | src/pages/StudySessionPage.tsx:126-144 | a study interval ends after as many ticks as it has seconds: the mode becomes break, the timer the long break iff the long-break rule holds, and an open session is logged once, completed, with `studyTime/60` minutes, and the counter goes up by 1 |
| `SessionTimer.BreakEnds` | src/pages/StudySessionPage.tsx:145-151 | the end of a break gives study mode, no session, not running, timer 0, and later ticks change nothing |
| `SessionTimer.IdleStays` | src/pages/StudySessionPage.tsx:124 | no tick changes a timer that is not running or has no time left |
| `SessionTimer.StopClears` | src/pages/StudySessionPage.tsx:95-113 | a stop clears the timer, session, subject, topic and subtopic and appends exactly one not-completed record iff a session was open |
| `SessionTimer.PauseResume` | src/pages/StudySessionPage.tsx:87-93 | calling `PauseTimer` then `ResumeTimer` on a running page gives back the page's whole state |
| `SessionTimer.AccountedKept` | src/pages/StudySessionPage.tsx:132-141 | every transition keeps the completed counter in step with the completed records added to the log |
| `SessionTimer.StudySessionPage.constructor` | src/pages/StudySessionPage.tsx:25-44 | the page starts stopped, in study mode, with no session and the default settings |
| `SessionTimer.StudySessionPage.StartTimer` | src/pages/StudySessionPage.tsx:66-85 | an empty subject changes nothing; otherwise timer = `studyTime`, study mode, running, and a new session with duration 0, not completed |
| `SessionTimer.StudySessionPage.PauseTimer` | src/pages/StudySessionPage.tsx:87-89 | only the running flag changes, to false |
| `SessionTimer.StudySessionPage.ResumeTimer` | src/pages/StudySessionPage.tsx:91-93 | only the running flag changes, to true |
| `SessionTimer.StudySessionPage.StopTimer` | src/pages/StudySessionPage.tsx:95-113 | the new state is `Stopped` of the old one |
| `SessionTimer.StudySessionPage.HandleTimerSettingChange` | src/pages/StudySessionPage.tsx:115-120 | only the settings change, by `SetSetting` on one field |
| `SessionTimer.StudySessionPage.Tick` | src/pages/StudySessionPage.tsx:123-154 | the new state is `Ticked` of the old one |
| `Common.CountCompleted` | src/components/study/StudyProgressModal.tsx:45-47 | a completed count never exceeds the length of its list |
| `StudyProgress.InPeriod` | src/components/study/StudyProgressModal.tsx:33-39 | the today/week slice is no longer than the log and holds only sessions of the period |
| `StudyProgress.InPeriodMembers` | src/components/study/StudyProgressModal.tsx:33-39 | a session is in the slice exactly when it is in the log and starts in the period |
| `StudyProgress.InPeriodAppend` | src/components/study/StudyProgressModal.tsx:33-39 | filtering two logs in a row gives the filtered first followed by the filtered second, so the slice keeps the log's order and repeats |
| `StudyProgress.InPeriodAllOrNone` | src/components/study/StudyProgressModal.tsx:33-39 | the slice is the whole log in order when every session is in the period, and empty when none is |
| `StudyProgress.PeriodSplit` | src/components/study/StudyProgressModal.tsx:41-43 | the time inside a period and the time outside it add up to the total time |
| `StudyProgress.PeriodCompletedBelow` | src/components/study/StudyProgressModal.tsx:45-47 | a period never has more completed sessions than the log |
| `StudyProgress.TallyWellFormed` | src/components/study/StudyProgressModal.tsx:49-60 | each dictionary lists its keys once each, and they are exactly its keys |
| `StudyProgress.TallyValue` | src/components/study/StudyProgressModal.tsx:49-60 | the minutes under a key are the sum of the durations of the sessions counted under it |
| `StudyProgress.TallyKey` | src/components/study/StudyProgressModal.tsx:49-60 | a key is present exactly when some session is counted under it |
| `StudyProgress.TallySum` | src/components/study/StudyProgressModal.tsx:54-60 | the dictionary's values add up to the minutes of the keyed sessions, so topic minutes sum to the sessions with a non-empty topic |
| `StudyProgress.SubjectTimeSum` | src/components/study/StudyProgressModal.tsx:49-52 | the minutes per subject add up to the total time |
| `StudyProgress.TallyMinutes` | src/components/study/StudyProgressModal.tsx:49-60 | the in-place accumulator loop builds `TallyOf` |
| `StudyProgress.GetProgressStats` | src/components/study/StudyProgressModal.tsx:27-67 | each statistic is its sum, filter, count or dictionary over the log and the caller's today/week predicates |
| `StudyProgress.SubjectColor` | src/components/study/StudyProgressModal.tsx:72-76 | the colour of the first subject with that name, or `#8884d8` when there is none or it has no colour |
| `StudyProgress.SubjectData` | src/components/study/StudyProgressModal.tsx:71-79 | one row per subject key, in key order, with that key's minutes, colour and share of the total time |
| `StudyProgress.PercentageBounds` | src/components/study/StudyProgressModal.tsx:77 | with non-negative minutes not above a positive total, the percentage is between 0 and 100 |
| `StudyProgress.History` | src/components/study/StudyProgressModal.tsx:242 | the history is the last 20 sessions, or all when fewer, most recent first |

## Left out

- Rendering (cards, dialogs, tabs, charts, icons) in every file: display only.
- The `setInterval`/`clearInterval` effect scheduling of the timer: the caller invokes `Tick`. The clock readings and the ids made from them (`Date.now()`, `new Date()`) are parameters `now` and `id`.
- The date checks for "today" and "this week" (`toDateString`, `startOfWeek`, `isWithinInterval`): they are predicates on the start time, supplied by the caller.
- `localStorage` reads and writes: the saved plans are a field of `Planner`. Storage failures are not modelled.
- `console.log`/`console.warn`, the `window.location` redirects and `getNextSuggestion` in src/components/StudyPlanner.tsx.
- The `toFixed` strings (`topic`, `subtopic`, `duration`) of a generated cycle day: only the number `totalPlannedHours` is kept.
- `rotationIntensity`: carried in `CycleConfig`, never read, as in the source.
- The timer code in src/components/StudyPlanner.tsx:258-330 duplicates the study-session page; it is modelled once, in `SessionTimer`.
- Floating-point rounding: all weights, hours and durations are exact reals. Quotients such as the daily target W/7, the slot remainder/4, the adjusted weight and the shares are computed exactly, where the source rounds them to doubles.
- `SubjectAssessment.ShortName`: counts characters (Unicode scalar values), where JavaScript's `length` and `substring(0, 10)` count UTF-16 code units. A name with characters outside the Basic Multilingual Plane (emoji, for instance) is cut at a different place in the source, or cut where the model keeps it whole.
- `StudyProgress.TallyMinutes`: the accumulator is a map. The source's plain `{}` inherits keys from `Object.prototype`: for a subject or topic named "toString" or "constructor", `acc[k] || 0` reads an inherited function and the stored value becomes a string, and "__proto__" is never stored as a key. For those names `TallySum` and `SubjectTimeSum` hold in the model but not in the source.
- `SessionTimer.PomodoroSettings`: the numeric settings are integers. The source's fields are JavaScript numbers, so a fractional value is not modelled.
- The key order of `Object.entries`: JavaScript lists integer-like keys first. The model keeps insertion order for every key.
- `subjects.indexOf(subject)` when one subject object appears twice in the list: the model uses each entry's own position.
- `SessionTimer.StudySessionPage.HandleTimerSettingChange`: requires a value whose kind (number or switch) fits the field. The source's signature accepts either kind for any field, and an ill-kinded write is not modelled.
- `CycleWeights.LevelOf` (and so `CycleWeights.SubjectWeight`, `CycleWeights.WeightTable` and `CycleWeights.WeightMonotone`): the level map has only the keys that were recorded. The source's `subjectLevels` is a plain `{}`, which inherits keys from `Object.prototype`. An unassessed subject named "toString", "constructor" or "__proto__" reads an inherited function or object there, which is neither "beginner" nor "intermediate", so it weighs 1 in the source and 2 in the model.
- `SubjectAssessment.FormCompleteMeans` (and `SubjectAssessment.IsFormComplete`): for the same reason, a subject named "toString", "constructor" or "__proto__" counts as assessed in the source without any recorded level; the model requires a recorded non-empty level.
- `StudyProgress.SubjectData`: a zero total time gives a NaN percentage in the source; the model gives no percentage (`None`).
- The record shapes of src/types/study.ts keep only the fields some core operation reads or writes.
- src/components/study/StudyPlanDisplay.tsx, src/components/study/StudyProgressFloatingButton.tsx, src/components/study/StudySessionHistory.tsx, src/pages/Configuration.tsx and src/db/singleton.ts are not part of this model. They are display, routing, a repeat of the today slice, or an in-browser SQL engine.
