/** The four-question general assessment
    (src/components/GeneralAssessment.tsx): each choice is appended to the
    answers, the step advances up to the last question, and the last choice
    stores the answers as `General_Q<i>: <answer>` tags, replacing the
    profile's `existing_skills`. */
module Assessment {
  import opened Wrappers
  import opened Text
  import opened Dashboard

  const QuestionCount := 4

  datatype State = State(step: nat, answers: seq<string>)

  const Start := State(0, [])

  /** What a choice leads to: the next question, or finishing with the
      collected answers. */
  datatype Effect = NextQuestion | Finish(answers: seq<string>)

  /** `handleSelect`. */
  function Select(st: State, option: string): (r: (State, Effect))
    ensures r.0.answers == st.answers + [option]
    ensures st.step < QuestionCount - 1 ==> r.0.step == st.step + 1 && r.1 == NextQuestion
    ensures st.step >= QuestionCount - 1 ==> r.0.step == st.step && r.1 == Finish(r.0.answers)
  {
    var answers := st.answers + [option];
    if st.step < QuestionCount - 1 then (State(st.step + 1, answers), NextQuestion)
    else (State(st.step, answers), Finish(answers))
  }

  /** Choosing `options` one after another from the first question; the
      effect is that of the last choice. */
  function Choose(options: seq<string>): (State, Effect)
    requires |options| > 0
  {
    if |options| == 1 then Select(Start, options[0])
    else Select(Choose(options[..|options| - 1]).0, options[|options| - 1])
  }

  /** Up to the fourth choice the step advances by one and stays within the
      questions; only the fourth choice finishes, with every answer in
      order. */
  lemma {:induction false} ChooseRun(options: seq<string>)
    requires 0 < |options| <= QuestionCount
    ensures Choose(options).0.answers == options
    ensures Choose(options).0.step == if |options| < QuestionCount then |options| else QuestionCount - 1
    ensures Choose(options).0.step < QuestionCount
    ensures Choose(options).1 == if |options| == QuestionCount then Finish(options) else NextQuestion
  {
    if |options| > 1 {
      var init := options[..|options| - 1];
      ChooseRun(init);
      var prev := Choose(init).0;
      assert Choose(options) == Select(prev, options[|options| - 1]);
      assert init + [options[|options| - 1]] == options;
    }
  }

  /** The tag stored for answer `i` (counting from 0). */
  function Tag(i: nat, answer: string): string {
    "General_Q" + NatToString(i + 1) + ": " + answer
  }

  /** `finalAnswers.map((ans, i) => ...)`: one tag per answer, in order. */
  function Tags(answers: seq<string>): (r: seq<string>)
    ensures |r| == |answers|
    ensures forall i :: 0 <= i < |r| ==> r[i] == Tag(i, answers[i])
  {
    seq(|answers|, i requires 0 <= i < |answers| => Tag(i, answers[i]))
  }

  /** The tags of a finished assessment mark the general step done; fewer
      answers would not. */
  lemma TagsMarkDone(answers: seq<string>)
    requires |answers| <= QuestionCount
    ensures HasTagPrefix(Tags(answers), LastAssessmentTag) <==> |answers| == QuestionCount
  {
    var tags := Tags(answers);
    forall i | 0 <= i < |tags| && i < QuestionCount - 1
      ensures !StartsWith(tags[i], LastAssessmentTag)
    {
      assert NatToString(i + 1) == [DigitChar(i + 1)];
      assert tags[i][9] == DigitChar(i + 1);
    }
    if |answers| == QuestionCount {
      assert NatToString(4) == "4";
      assert tags[3][..10] == LastAssessmentTag;
    }
  }

  /** `finishAssessment`: on success the tags replace `existing_skills`
      entirely and `onComplete` is called; a failed update changes nothing.
      The second component says whether `onComplete` is called. */
  function FinishAssessment(profile: Option<Profile>, answers: seq<string>, updateOk: bool): (r: (Option<Profile>, bool))
    ensures r.1 == updateOk
    ensures !updateOk || profile.None? ==> r.0 == profile
    ensures updateOk && profile.Some? ==>
      r.0 == Some(profile.value.(existingSkills := Some(Tags(answers))))
  {
    if updateOk && profile.Some? then (Some(profile.value.(existingSkills := Some(Tags(answers)))), true)
    else (profile, updateOk)
  }

  /** Completing the assessment moves the dashboard on: to the career choice
      when no career is chosen yet. */
  lemma AssessmentUnlocksCareer(profile: Option<Profile>, options: seq<string>, roadmap: Option<Roadmap>, view: View)
    requires profile.Some? && |options| == QuestionCount
    ensures Choose(options).1 == Finish(options)
    ensures var after := FinishAssessment(profile, options, true).0;
      && GeneralDone(after)
      && (!CareerSelected(profile) ==> Stage(after, roadmap, view) == CareerPanel)
  {
    ChooseRun(options);
    TagsMarkDone(options);
  }
}
