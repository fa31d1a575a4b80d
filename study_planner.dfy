/** The planner page's cycle regeneration (src/components/StudyPlanner.tsx,
    handleRegenerateCycle): the current plan gets a freshly generated cycle
    and the saved plan with the same id is replaced by it.  The saved list
    lives in browser storage in the source; here it is a field. */
module StudyPlanner {
  import opened Common
  import opened CycleWeights
  import opened CycleGenerator

  datatype PlanType = CyclePlan | SchedulePlan

  /** A study plan.  Only the fields the planner reads or writes are kept;
      an absent `id` compares equal to another absent `id`, as `undefined`
      does under `===`. */
  datatype StudyPlan = StudyPlan(
    id: Option<string>,
    planType: PlanType,
    subjects: seq<StudySubject>,
    cycle: Option<seq<CycleDay>>,
    totalHours: real,
    focusAreas: seq<string>,
    weeklyHourLimit: Option<real>)

  /** The saved list with every plan whose id equals `updated`'s replaced by
      `updated`. */
  function ReplaceById(plans: seq<StudyPlan>, updated: StudyPlan): (r: seq<StudyPlan>)
    ensures |r| == |plans|
    ensures forall i :: 0 <= i < |r| ==> r[i] == (if plans[i].id == updated.id then updated else plans[i])
  {
    if plans == [] then []
    else [if plans[0].id == updated.id then updated else plans[0]] + ReplaceById(plans[1..], updated)
  }

  /** After the replacement `updated` is the only plan carrying its id. */
  lemma {:induction false} ReplaceByIdMatches(plans: seq<StudyPlan>, updated: StudyPlan)
    ensures forall i :: 0 <= i < |plans| ==>
      (ReplaceById(plans, updated)[i].id == updated.id <==> ReplaceById(plans, updated)[i] == updated)
  {
    if plans != [] {
      ReplaceByIdMatches(plans[1..], updated);
    }
  }

  /** Saving the same plan twice leaves the list as saving it once. */
  lemma {:induction false} ReplaceByIdIdempotent(plans: seq<StudyPlan>, updated: StudyPlan)
    ensures ReplaceById(ReplaceById(plans, updated), updated) == ReplaceById(plans, updated)
  {
    if plans != [] {
      ReplaceByIdIdempotent(plans[1..], updated);
      assert ReplaceById(plans, updated)[1..] == ReplaceById(plans[1..], updated);
    }
  }

  /** A plan whose id is not saved leaves the saved list as it was. */
  lemma {:induction false} ReplaceByIdAbsent(plans: seq<StudyPlan>, updated: StudyPlan)
    requires forall i :: 0 <= i < |plans| ==> plans[i].id != updated.id
    ensures ReplaceById(plans, updated) == plans
  {
    if plans != [] {
      ReplaceByIdAbsent(plans[1..], updated);
    }
  }

  /** The planner's state that cycle regeneration reads and writes. */
  class Planner {
    var studyPlan: Option<StudyPlan>
    var savedPlans: seq<StudyPlan>
    var allSubjects: seq<StudySubject>
    var subjectLevels: map<string, string>

    /** The page opens on the plan held by the shared context (if any), the
        stored plans and the current subjects with their levels. */
    constructor (contextPlan: Option<StudyPlan>, saved: seq<StudyPlan>,
                 subjects: seq<StudySubject>, levels: map<string, string>)
      ensures studyPlan == contextPlan && savedPlans == saved
      ensures allSubjects == subjects && subjectLevels == levels
    {
      studyPlan := contextPlan;
      savedPlans := saved;
      allSubjects := subjects;
      subjectLevels := levels;
    }

    /** Without a current plan nothing happens.  Otherwise the plan keeps
        every field but `cycle`, which becomes the generator's output for the
        current subjects and the plan's total hours, and the saved plans with
        that plan's id are replaced by it. */
    method RegenerateCycle(config: CycleConfig)
      modifies this
      ensures old(studyPlan).None? ==> studyPlan == old(studyPlan) && savedPlans == old(savedPlans)
      ensures old(studyPlan).Some? ==>
        studyPlan == Some(old(studyPlan).value.(cycle := Some(IntelligentCycle(allSubjects, subjectLevels, old(studyPlan).value.totalHours, config))))
      ensures old(studyPlan).Some? ==> savedPlans == ReplaceById(old(savedPlans), studyPlan.value)
      ensures allSubjects == old(allSubjects) && subjectLevels == old(subjectLevels)
    {
      if studyPlan.None? {
        return;
      }
      var plan := studyPlan.value;
      var cycle := GenerateIntelligentCyclePlan(allSubjects, subjectLevels, plan.totalHours, config);
      var updatedPlan := plan.(cycle := Some(cycle));
      studyPlan := Some(updatedPlan);
      savedPlans := ReplaceById(savedPlans, updatedPlan);
    }
  }
}
