/** The four-step onboarding form (src/components/Onboarding.tsx) and its
    completion: the form keeps a duplicate-free skill list, at most one of
    the two target fields filled, a step in 1..4 and weekly hours in 1..40;
    completing it writes the profile first and then asks the
    `generate-roadmap` function for a roadmap. */
module Onboarding {
  import opened Wrappers
  import opened Text
  import opened Seqs
  import opened Dashboard
  import Generation

  datatype Form = Form(
    step: int,
    education: string,
    skills: seq<string>,     // existingSkills
    customSkill: string,     // the skill text box
    target: string,          // targetSkill, a suggested role
    customTarget: string,    // the free-text role
    hours: nat,              // weeklyHours
    loading: bool)

  const Initial := Form(1, "", [], "", "", "", 10, false)

  /** The form's own invariants. */
  predicate Valid(f: Form) {
    && 1 <= f.step <= 4
    && Distinct(f.skills)
    && "" !in f.skills
    && (f.target == "" || f.customTarget == "")
    && 1 <= f.hours <= 40
  }

  /** `addSkill`: a non-empty skill not yet listed is appended; the text box
      is cleared either way. */
  function AddSkill(f: Form, skill: string): (r: Form)
    ensures r.customSkill == ""
    ensures skill != "" && skill !in f.skills ==> r.skills == f.skills + [skill]
    ensures skill == "" || skill in f.skills ==> r.skills == f.skills
    ensures r == f.(skills := r.skills, customSkill := "")
  {
    var skills := if skill != "" && skill !in f.skills then f.skills + [skill] else f.skills;
    f.(skills := skills, customSkill := "")
  }

  /** `removeSkill`. */
  function RemoveSkill(f: Form, skill: string): (r: Form)
    ensures skill !in r.skills
    ensures forall s :: s != skill ==> (s in r.skills <==> s in f.skills)
    ensures r == f.(skills := r.skills)
  {
    f.(skills := Without(f.skills, skill))
  }

  /** Adding a new skill and removing it again gives back the list. */
  lemma RemoveUndoesAdd(f: Form, skill: string)
    requires skill != "" && skill !in f.skills
    ensures RemoveSkill(AddSkill(f, skill), skill).skills == f.skills
  {
    WithoutLast(f.skills, skill);
  }

  /** `handleNext`: blocked at step 1 without an education level and at
      step 3 without a target; the button is offered only below step 4. */
  function Next(f: Form): (r: Form)
    ensures f.step == 1 && f.education == "" ==> r == f
    ensures f.step == 3 && f.target == "" && f.customTarget == "" ==> r == f
    ensures r == f || r == f.(step := f.step + 1)
    ensures r.step == f.step + 1 <==>
      && f.step < 4
      && !(f.step == 1 && f.education == "")
      && !(f.step == 3 && f.target == "" && f.customTarget == "")
  {
    if f.step >= 4 then f
    else if f.step == 1 && f.education == "" then f
    else if f.step == 3 && f.target == "" && f.customTarget == "" then f
    else f.(step := f.step + 1)
  }

  /** The Back button, disabled at step 1 and while loading. */
  function Back(f: Form): (r: Form)
    ensures f.step == 1 || f.loading ==> r == f
    ensures !(f.step == 1 || f.loading) ==> r == f.(step := f.step - 1)
  {
    if f.step == 1 || f.loading then f else f.(step := f.step - 1)
  }

  /** Choosing a suggested role clears the free-text role, and typing a
      role clears the suggested one. */
  function PickTarget(f: Form, t: string): (r: Form)
    ensures r.target == t && r.customTarget == ""
  {
    f.(target := t, customTarget := "")
  }

  function TypeTarget(f: Form, t: string): (r: Form)
    ensures r.customTarget == t && r.target == ""
  {
    f.(customTarget := t, target := "")
  }

  /** A range input with `min="1" max="40"` only ever reports a value
      within its bounds: the browser clamps it. */
  function SliderValue(v: int): (h: nat)
    ensures 1 <= h <= 40
    ensures 1 <= v <= 40 ==> h == v
  {
    if v < 1 then 1 else if v > 40 then 40 else v
  }

  /** The inputs of the form. */
  datatype Action =
    | SetEducation(level: string)
    | TypeSkill(text: string)
    | Add(skill: string)
    | Remove(skill: string)
    | Pick(role: string)
    | TypeRole(role: string)
    | Slide(value: int)
    | Preset(index: nat)     // the 5, 10 and 20 hour buttons
    | PressNext
    | PressBack

  const Presets: seq<nat> := [5, 10, 20]

  function Step(f: Form, a: Action): Form {
    match a
    case SetEducation(level) => f.(education := level)
    case TypeSkill(text) => f.(customSkill := text)
    case Add(skill) => AddSkill(f, skill)
    case Remove(skill) => RemoveSkill(f, skill)
    case Pick(role) => PickTarget(f, role)
    case TypeRole(role) => TypeTarget(f, role)
    case Slide(v) => f.(hours := SliderValue(v))
    case Preset(i) => if i < |Presets| then f.(hours := Presets[i]) else f
    case PressNext => Next(f)
    case PressBack => Back(f)
  }

  /** Every input keeps the form's invariants. */
  lemma StepKeepsValid(f: Form, a: Action)
    requires Valid(f)
    ensures Valid(Step(f, a))
  {
    match a
    case Remove(skill) => WithoutKeepsDistinct(f.skills, skill);
    case Add(skill) =>
      if skill != "" && skill !in f.skills {
        AppendKeepsDistinct(f.skills, skill);
      }
    case _ =>
  }

  function Run(f: Form, actions: seq<Action>): Form
    decreases |actions|
  {
    if |actions| == 0 then f else Run(Step(f, actions[0]), actions[1..])
  }

  /** Whatever the user does, the form stays valid from its initial state. */
  lemma {:induction false} RunKeepsValid(f: Form, actions: seq<Action>)
    requires Valid(f)
    ensures Valid(Run(f, actions))
    decreases |actions|
  {
    if |actions| > 0 {
      StepKeepsValid(f, actions[0]);
      RunKeepsValid(Step(f, actions[0]), actions[1..]);
    }
  }

  lemma InitialValid()
    ensures Valid(Initial)
  {
  }

  // ---------------------------------------------------------------------
  // Completion
  // ---------------------------------------------------------------------

  /** `customTarget || targetSkill`. */
  function FinalTarget(f: Form): (r: string)
    ensures f.customTarget != "" ==> r == f.customTarget
    ensures f.customTarget == "" ==> r == f.target
  {
    if f.customTarget != "" then f.customTarget else f.target
  }

  /** What `handleComplete` leads to: the profile afterwards, the body sent
      to `generate-roadmap` (None when it is not called), whether
      `onComplete` runs, and whether an empty target stopped it. */
  datatype Completion = Completion(
    profile: Option<Profile>,
    request: Option<Generation.Profile>,
    onComplete: bool,
    rejected: bool)

  /** The body of the generation request. */
  function GenerationRequest(f: Form, userId: string): (r: Generation.Profile)
    ensures r.existingSkills == Some(f.skills) && r.targetSkill == FinalTarget(f)
  {
    Generation.Profile(userId, f.education, Some(f.skills), FinalTarget(f), f.hours)
  }

  /** The profile write of `handleComplete` with a given `existing_skills`. */
  function WriteProfile(profile: Option<Profile>, f: Form, skills: seq<string>): (r: Option<Profile>)
    ensures profile.None? ==> r.None?
    ensures profile.Some? ==>
      && r.Some? && r.value.onboardingCompleted
      && r.value.targetSkill == Some(FinalTarget(f))
      && r.value.existingSkills == Some(skills)
  {
    if profile.None? then None
    else Some(profile.value.(educationLevel := f.education, existingSkills := Some(skills),
                             targetSkill := Some(FinalTarget(f)), weeklyHours := f.hours,
                             onboardingCompleted := true))
  }

  /** `handleComplete` as written: `existing_skills` is overwritten with the
      form's skills. The profile is written before the generation call, so
      a failed generation leaves the write in place. */
  function CompleteAsWritten(f: Form, userId: string, profile: Option<Profile>,
                             profileOk: bool, generationOk: bool): (r: Completion)
    ensures r.rejected <==> FinalTarget(f) == ""
    ensures r.rejected || !profileOk ==> r.profile == profile && r.request.None? && !r.onComplete
    ensures !r.rejected && profileOk ==>
      && r.profile == WriteProfile(profile, f, f.skills)
      && r.request == Some(GenerationRequest(f, userId))
      && (r.onComplete <==> generationOk)
  {
    if FinalTarget(f) == "" then Completion(profile, None, false, true)
    else if !profileOk then Completion(profile, None, false, false)
    else Completion(WriteProfile(profile, f, f.skills), Some(GenerationRequest(f, userId)), generationOk, false)
  }

  /** As written, a user who finished the general assessment and then
      completes onboarding (with ordinary skill names) is sent back to the
      general assessment, even with the new roadmap in place: the
      `General_Q4` tag is gone. */
  lemma OnboardingErasesAssessment(f: Form, userId: string, profile: Option<Profile>,
                                   roadmap: Option<Roadmap>, view: View)
    requires GeneralDone(profile) && FinalTarget(f) != ""
    requires forall i :: 0 <= i < |f.skills| ==> !StartsWith(f.skills[i], LastAssessmentTag)
    ensures var r := CompleteAsWritten(f, userId, profile, true, true);
      r.onComplete && Stage(r.profile, roadmap, view) == AssessmentPanel
  {
  }

  /** The entries of `existing_skills` that record assessment answers. */
  function AssessmentTags(skills: seq<string>): (r: seq<string>)
    ensures forall i :: 0 <= i < |skills| && StartsWith(skills[i], "General_Q") ==> skills[i] in r
    ensures forall s :: s in r ==> s in skills && StartsWith(s, "General_Q")
  {
    if |skills| == 0 then []
    else if StartsWith(skills[0], "General_Q") then [skills[0]] + AssessmentTags(skills[1..])
    else AssessmentTags(skills[1..])
  }

  /** `handleComplete` as evidently intended: the assessment tags are kept
      in front of the form's skills. */
  function Complete(f: Form, userId: string, profile: Option<Profile>,
                    profileOk: bool, generationOk: bool): (r: Completion)
    ensures r.rejected <==> FinalTarget(f) == ""
    ensures r.rejected || !profileOk ==> r.profile == profile && r.request.None? && !r.onComplete
    ensures !r.rejected && profileOk ==>
      && r.request == Some(GenerationRequest(f, userId))
      && (r.onComplete <==> generationOk)
  {
    if FinalTarget(f) == "" then Completion(profile, None, false, true)
    else if !profileOk then Completion(profile, None, false, false)
    else
      var kept := if profile.Some? && profile.value.existingSkills.Some?
                  then AssessmentTags(profile.value.existingSkills.value) else [];
      Completion(WriteProfile(profile, f, kept + f.skills), Some(GenerationRequest(f, userId)), generationOk, false)
  }

  /** With the tags kept, finishing onboarding after the assessment reaches
      the full dashboard once the roadmap exists, and the form's skills are
      all still listed. */
  lemma CompleteReachesDashboard(f: Form, userId: string, profile: Option<Profile>,
                                 roadmap: Option<Roadmap>, view: View)
    requires GeneralDone(profile) && FinalTarget(f) != "" && roadmap.Some?
    ensures var r := Complete(f, userId, profile, true, true);
      && r.onComplete
      && ShowFullDashboard(r.profile, roadmap)
      && forall i :: 0 <= i < |f.skills| ==> f.skills[i] in r.profile.value.existingSkills.value
  {
    var before := profile.value.existingSkills.value;
    var i :| 0 <= i < |before| && StartsWith(before[i], LastAssessmentTag);
    assert StartsWith(before[i], "General_Q") by {
      assert before[i][..9] == before[i][..10][..9];
    }
    var kept := AssessmentTags(before);
    var all := kept + f.skills;
    assert before[i] in kept;
    var j :| 0 <= j < |kept| && kept[j] == before[i];
    assert all[j] == before[i];
    forall k | 0 <= k < |f.skills|
      ensures f.skills[k] in all
    {
      assert all[|kept| + k] == f.skills[k];
    }
  }

  /** The prompt sent for a completed form lists every skill of the form. */
  lemma PromptListsFormSkills(f: Form, userId: string)
    ensures var req := GenerationRequest(f, userId);
      forall i :: 0 <= i < |f.skills| ==> Contains(Generation.UserPrompt(req, f.skills), f.skills[i])
  {
    Generation.PromptMentions(GenerationRequest(f, userId), f.skills);
  }
}
