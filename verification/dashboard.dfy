/** The profile stages of the dashboard (src/pages/Dashboard.tsx): which
    panel is shown follows from the profile's `existing_skills` tags,
    `target_skill`, `onboarding_completed` and whether a roadmap exists;
    the transitions are the profile writes of the dashboard itself. */
module Dashboard {
  import opened Wrappers
  import opened Text

  /** The columns of a `profiles` row that the stages read or write. */
  datatype Profile = Profile(
    existingSkills: Option<seq<string>>,   // None for null
    targetSkill: Option<string>,           // None for null
    onboardingCompleted: bool,
    educationLevel: string,
    weeklyHours: nat)

  /** A row of `skill_roadmaps`, as far as the dashboard orders it. */
  datatype Roadmap = Roadmap(id: nat, userId: string, createdAt: int)

  datatype View = HomeView | RoadmapView

  datatype Panel = AssessmentPanel | CareerPanel | OnboardingPanel | HomePanel | RoadmapPanel | RetrievingPanel

  /** The tag the fourth general-assessment answer leaves behind. */
  const LastAssessmentTag := "General_Q4"

  predicate HasTagPrefix(skills: seq<string>, prefix: string) {
    exists i :: 0 <= i < |skills| && StartsWith(skills[i], prefix)
  }

  /** `generalDone`: some existing skill starts with `General_Q4`. */
  predicate GeneralDone(profile: Option<Profile>) {
    profile.Some? && profile.value.existingSkills.Some?
    && HasTagPrefix(profile.value.existingSkills.value, LastAssessmentTag)
  }

  /** `careerSelected`: the target is neither null nor empty. */
  predicate CareerSelected(profile: Option<Profile>) {
    profile.Some? && profile.value.targetSkill.Some? && profile.value.targetSkill.value != ""
  }

  predicate OnboardingDone(profile: Option<Profile>) {
    profile.Some? && profile.value.onboardingCompleted
  }

  /** `showFullDashboard`. */
  predicate ShowFullDashboard(profile: Option<Profile>, roadmap: Option<Roadmap>) {
    GeneralDone(profile) && CareerSelected(profile) && OnboardingDone(profile) && roadmap.Some?
  }

  /** Every panel whose render condition holds, once loading is over. */
  function Panels(profile: Option<Profile>, roadmap: Option<Roadmap>, view: View): set<Panel> {
    (if !GeneralDone(profile) then {AssessmentPanel} else {})
    + (if GeneralDone(profile) && !CareerSelected(profile) then {CareerPanel} else {})
    + (if GeneralDone(profile) && CareerSelected(profile) && !OnboardingDone(profile) then {OnboardingPanel} else {})
    + (if ShowFullDashboard(profile, roadmap) && view == HomeView then {HomePanel} else {})
    + (if ShowFullDashboard(profile, roadmap) && view == RoadmapView then {RoadmapPanel} else {})
    + (if GeneralDone(profile) && CareerSelected(profile) && OnboardingDone(profile) && roadmap.None?
       then {RetrievingPanel} else {})
  }

  /** The stage the user is at: the first missing step, or the chosen view. */
  function Stage(profile: Option<Profile>, roadmap: Option<Roadmap>, view: View): Panel {
    if !GeneralDone(profile) then AssessmentPanel
    else if !CareerSelected(profile) then CareerPanel
    else if !OnboardingDone(profile) then OnboardingPanel
    else if roadmap.None? then RetrievingPanel
    else if view == HomeView then HomePanel
    else RoadmapPanel
  }

  /** Exactly one panel is shown, and it is the user's stage; the full
      dashboard needs all four conditions. */
  lemma ExactlyOnePanel(profile: Option<Profile>, roadmap: Option<Roadmap>, view: View)
    ensures Panels(profile, roadmap, view) == {Stage(profile, roadmap, view)}
    ensures Stage(profile, roadmap, view) in {HomePanel, RoadmapPanel} <==> ShowFullDashboard(profile, roadmap)
  {
  }

  /** `selectCareer(c)`: sets the target and clears `onboarding_completed`;
      a failed update changes nothing. */
  function SelectCareer(profile: Option<Profile>, career: string, updateOk: bool): (r: Option<Profile>)
    ensures profile.None? || !updateOk ==> r == profile
    ensures profile.Some? && updateOk ==>
      && r.Some? && r.value.targetSkill == Some(career) && !r.value.onboardingCompleted
      && r.value.existingSkills == profile.value.existingSkills
  {
    if profile.Some? && updateOk then
      Some(profile.value.(targetSkill := Some(career), onboardingCompleted := false))
    else profile
  }

  /** After the general assessment, choosing a career leads to onboarding,
      and "Choose a different career" (an empty career) back to the career
      choice. */
  lemma SelectCareerStages(profile: Option<Profile>, career: string, roadmap: Option<Roadmap>, view: View)
    requires GeneralDone(profile)
    ensures career != "" ==> Stage(SelectCareer(profile, career, true), roadmap, view) == OnboardingPanel
    ensures career == "" ==> Stage(SelectCareer(profile, career, true), roadmap, view) == CareerPanel
  {
  }

  /** "New roadmap" from the roadmap view: only `onboarding_completed` is
      cleared. The handler does not look at the update's error and reloads
      the profile either way, so a failed update leaves it as it was. */
  function NewRoadmap(profile: Option<Profile>, updateOk: bool): (r: Option<Profile>)
    ensures profile.None? || !updateOk ==> r == profile
    ensures profile.Some? && updateOk ==>
      && r.Some? && !r.value.onboardingCompleted
      && r.value.existingSkills == profile.value.existingSkills
      && r.value.targetSkill == profile.value.targetSkill
  {
    if profile.Some? && updateOk then Some(profile.value.(onboardingCompleted := false)) else profile
  }

  /** From the full dashboard, a successful "New roadmap" leads back to
      onboarding with the same career; after a failed update the reload
      shows the same panel as before. */
  lemma NewRoadmapStage(profile: Option<Profile>, roadmap: Option<Roadmap>, view: View, updateOk: bool)
    requires ShowFullDashboard(profile, roadmap)
    ensures updateOk ==> Stage(NewRoadmap(profile, updateOk), roadmap, view) == OnboardingPanel
    ensures !updateOk ==> Stage(NewRoadmap(profile, updateOk), roadmap, view) == Stage(profile, roadmap, view)
  {
  }

  // ---------------------------------------------------------------------
  // The current roadmap
  // ---------------------------------------------------------------------

  /** The user's most recent roadmap by `created_at` (the first of equal
      ones), `None` when the user has none. */
  function LatestRoadmap(rows: seq<Roadmap>, userId: string): (r: Option<Roadmap>)
    ensures r.None? <==> forall i :: 0 <= i < |rows| ==> rows[i].userId != userId
    ensures r.Some? ==> r.value in rows && r.value.userId == userId
    ensures r.Some? ==> forall i :: 0 <= i < |rows| && rows[i].userId == userId ==> rows[i].createdAt <= r.value.createdAt
  {
    if |rows| == 0 then None
    else
      var rest := LatestRoadmap(rows[1..], userId);
      if rows[0].userId != userId then rest
      else if rest.Some? && rest.value.createdAt > rows[0].createdAt then rest
      else Some(rows[0])
  }

  /** A roadmap stored later than every earlier one becomes the current one. */
  lemma NewestIsCurrent(rows: seq<Roadmap>, row: Roadmap)
    requires forall i :: 0 <= i < |rows| ==> rows[i].createdAt < row.createdAt
    ensures LatestRoadmap(rows + [row], row.userId) == Some(row)
  {
    var all := rows + [row];
    var r := LatestRoadmap(all, row.userId);
    assert all[|rows|] == row;
    assert r.value in all;
  }
}
