/** Grading of a skill quiz, shared by the skill page
    (src/pages/SkillDetail.tsx) and the skill dialog
    (src/components/SkillDetailModal.tsx): every question must be answered,
    the score counts exact matches with `correctAnswer`, and the quiz passes
    at `Math.ceil(n * 0.67)` correct answers. */
module Quiz {
  import opened Roadmap

  /** `Math.ceil(n * 0.67)` in exact arithmetic; the floating-point product
      agrees with it for every quiz shorter than 100 questions. For the
      standard three-question quiz the threshold is 3, not the 2 the page
      text announces. */
  function PassThreshold(n: nat): (t: nat)
    ensures 100 * t >= 67 * n
    ensures 100 * t < 67 * n + 100
    ensures n == 3 ==> t == 3
  {
    (67 * n + 99) / 100
  }

  /** Answers chosen so far: question index to option index, as the
      `Record<number, number>` of the page. */
  type Answers = map<int, int>

  predicate IsCorrect(quiz: seq<QuizQuestion>, answers: Answers, i: int)
    requires 0 <= i < |quiz|
  {
    i in answers && answers[i] == quiz[i].correctAnswer
  }

  /** The questions answered correctly. */
  function CorrectIndices(quiz: seq<QuizQuestion>, answers: Answers): set<int> {
    set i | 0 <= i < |quiz| && IsCorrect(quiz, answers, i)
  }

  function Score(quiz: seq<QuizQuestion>, answers: Answers): nat {
    |CorrectIndices(quiz, answers)|
  }

  /** The indices 0 .. n-1. */
  function Range(n: nat): (r: set<int>)
    ensures forall i :: i in r <==> 0 <= i < n
    ensures |r| == n
  {
    if n == 0 then {} else Range(n - 1) + {n - 1}
  }

  /** A set of indices below n has at most n members, and exactly n only
      when it is all of them. */
  lemma {:induction false} SubsetOfRange(a: set<int>, n: nat)
    requires a <= Range(n)
    ensures |a| <= n
    ensures |a| == n ==> a == Range(n)
  {
    if n > 0 {
      var rest := a - {n - 1};
      SubsetOfRange(rest, n - 1);
      if n - 1 in a {
        assert a == rest + {n - 1};
      } else {
        assert a == rest;
      }
    } else {
      assert a == {};
    }
  }

  /** The score never exceeds the number of questions. */
  lemma ScoreBounded(quiz: seq<QuizQuestion>, answers: Answers)
    ensures Score(quiz, answers) <= |quiz|
  {
    SubsetOfRange(CorrectIndices(quiz, answers), |quiz|);
  }

  /** The `quiz.forEach` loop of `handleSubmitQuiz`. */
  method CountCorrect(quiz: seq<QuizQuestion>, answers: Answers) returns (correct: nat)
    ensures correct == Score(quiz, answers)
    ensures correct <= |quiz|
  {
    correct := 0;
    var i := 0;
    while i < |quiz|
      invariant 0 <= i <= |quiz|
      invariant correct == |set j | 0 <= j < i && IsCorrect(quiz, answers, j)|
    {
      var before := set j | 0 <= j < i && IsCorrect(quiz, answers, j);
      var after := set j | 0 <= j < i + 1 && IsCorrect(quiz, answers, j);
      if i in answers && answers[i] == quiz[i].correctAnswer {
        assert after == before + {i};
        correct := correct + 1;
      } else {
        assert after == before;
      }
      i := i + 1;
    }
    assert (set j | 0 <= j < i && IsCorrect(quiz, answers, j)) == CorrectIndices(quiz, answers);
    ScoreBounded(quiz, answers);
  }

  /** The outcome of pressing submit: refused before any scoring, or graded. */
  datatype Submission = Incomplete | Graded(score: nat, passed: bool)

  /** The scoring part of `handleSubmitQuiz`, identical in both components. */
  function Grade(quiz: seq<QuizQuestion>, answers: Answers): (r: Submission)
    ensures r.Incomplete? <==> |answers.Keys| < |quiz|
    ensures r.Graded? ==> r.score == |CorrectIndices(quiz, answers)| && r.score <= |quiz|
    ensures r.Graded? ==> (r.passed <==> 100 * r.score >= 67 * |quiz|)
  {
    ScoreBounded(quiz, answers);
    if |answers.Keys| < |quiz| then Incomplete
    else
      var score := Score(quiz, answers);
      Graded(score, score >= PassThreshold(|quiz|))
  }

  /** The radio groups only ever record answers for real questions; with such
      answers, a graded submission has every question answered. */
  lemma GradedMeansAllAnswered(quiz: seq<QuizQuestion>, answers: Answers)
    requires forall k :: k in answers ==> 0 <= k < |quiz|
    requires Grade(quiz, answers).Graded?
    ensures forall i :: 0 <= i < |quiz| ==> i in answers
  {
    SubsetOfRange(answers.Keys, |quiz|);
  }

  /** The three-question quiz the generator produces passes only with all
      three answers right. */
  lemma ThreeQuestionQuiz(quiz: seq<QuizQuestion>, answers: Answers)
    requires |quiz| == 3 && Grade(quiz, answers).Graded?
    ensures Grade(quiz, answers).passed <==> Score(quiz, answers) == 3
  {
  }

  /** The quiz state of a component: answers, and the submitted and passed flags. */
  datatype QuizState = QuizState(answers: Answers, submitted: bool, passed: bool)

  const InitialQuiz := QuizState(map[], false, false)

  /** `handleAnswerChange`: records (or changes) one question's answer. */
  function AnswerChange(st: QuizState, question: int, option: int): (r: QuizState)
    ensures question in r.answers && r.answers[question] == option
    ensures forall k :: k != question ==> (k in r.answers <==> k in st.answers)
    ensures r.submitted == st.submitted && r.passed == st.passed
  {
    st.(answers := st.answers[question := option])
  }

  /** `resetQuiz`: clears the answers and both flags. */
  function ResetQuiz(st: QuizState): (r: QuizState)
    ensures r.answers == map[] && !r.submitted && !r.passed
  {
    InitialQuiz
  }

  /** `handleSubmitQuiz` of the skill page: an incomplete submission changes
      nothing; otherwise the flags are set from the grade and, on a pass, the
      skill's progress row is marked complete if the database update
      succeeds (`updateOk`). A failed update keeps both flags set and the
      progress as it was. */
  function SubmitOnPage(quiz: seq<QuizQuestion>, st: QuizState, progress: seq<ProgressRow>, skillName: string, phaseName: string,
                        updateOk: bool): (r: (QuizState, seq<ProgressRow>))
    ensures |st.answers.Keys| < |quiz| ==> r == (st, progress)
    ensures |st.answers.Keys| >= |quiz| ==> r.0.submitted && r.0.answers == st.answers
    ensures |st.answers.Keys| >= |quiz| ==> (r.0.passed <==> Score(quiz, st.answers) >= PassThreshold(|quiz|))
    ensures !r.0.passed || !updateOk ==> r.1 == progress
    ensures |st.answers.Keys| >= |quiz| && r.0.passed && updateOk && FindRow(progress, skillName, phaseName).Some?
      ==> IsSkillCompleted(r.1, skillName, phaseName)
  {
    match Grade(quiz, st.answers)
    case Incomplete => (st, progress)
    case Graded(score, passed) =>
      MarkCompletes(progress, skillName, phaseName, updateOk);
      (QuizState(st.answers, true, passed), if passed then MarkSkillComplete(progress, skillName, phaseName, updateOk) else progress)
  }

  /** `handleSubmitQuiz` of the skill dialog: same grading; the second
      component is whether `onComplete` is invoked. */
  function SubmitInModal(quiz: seq<QuizQuestion>, st: QuizState): (r: (QuizState, bool))
    ensures |st.answers.Keys| < |quiz| ==> r == (st, false)
    ensures |st.answers.Keys| >= |quiz| ==> r.0.submitted && r.0.answers == st.answers
    ensures r.1 <==> |st.answers.Keys| >= |quiz| && Score(quiz, st.answers) >= PassThreshold(|quiz|)
    ensures |st.answers.Keys| >= |quiz| ==> (r.1 <==> r.0.passed)
  {
    match Grade(quiz, st.answers)
    case Incomplete => (st, false)
    case Graded(score, passed) => (QuizState(st.answers, true, passed), passed)
  }

  /** The quiz block is shown only for an unlocked, not yet completed skill
      that has questions. */
  predicate QuizVisible(locked: bool, completed: bool, quiz: seq<QuizQuestion>) {
    !locked && !completed && |quiz| > 0
  }

  /** Passing on the skill page (with a progress row to mark) hides the quiz,
      because the skill now reads as completed; when the update fails the
      quiz block stays exactly as visible as it was. */
  lemma PassHidesQuiz(quiz: seq<QuizQuestion>, st: QuizState, progress: seq<ProgressRow>,
                      skillName: string, phaseName: string, updateOk: bool, locked: bool)
    ensures var r := SubmitOnPage(quiz, st, progress, skillName, phaseName, updateOk);
      updateOk && FindRow(progress, skillName, phaseName).Some? && |st.answers.Keys| >= |quiz| && r.0.passed
      ==> !QuizVisible(locked, IsSkillCompleted(r.1, skillName, phaseName), quiz)
    ensures var r := SubmitOnPage(quiz, st, progress, skillName, phaseName, updateOk);
      !updateOk ==> (QuizVisible(locked, IsSkillCompleted(r.1, skillName, phaseName), quiz)
                     == QuizVisible(locked, IsSkillCompleted(progress, skillName, phaseName), quiz))
  {
  }

  /** Answering every question makes a submission gradable. */
  lemma AnswerAllGrades(quiz: seq<QuizQuestion>, st: QuizState, options: seq<int>)
    requires |options| == |quiz|
    ensures Grade(quiz, AnswerEach(st, options).answers).Graded?
  {
    AnswerEachKeys(st, options);
    SubsetOfRange(Range(|quiz|), |quiz|);
    assert Range(|quiz|) <= AnswerEach(st, options).answers.Keys;
    SubsetCard(Range(|quiz|), AnswerEach(st, options).answers.Keys);
  }

  /** `handleAnswerChange` for question 0, 1, ... in turn. */
  function AnswerEach(st: QuizState, options: seq<int>): QuizState
    decreases |options|
  {
    if |options| == 0 then st
    else AnswerChange(AnswerEach(st, options[..|options| - 1]), |options| - 1, options[|options| - 1])
  }

  lemma {:induction false} AnswerEachKeys(st: QuizState, options: seq<int>)
    ensures forall i :: 0 <= i < |options| ==> i in AnswerEach(st, options).answers
    decreases |options|
  {
    if |options| > 0 {
      AnswerEachKeys(st, options[..|options| - 1]);
    }
  }

  lemma SubsetCard(a: set<int>, b: set<int>)
    requires a <= b
    ensures |a| <= |b|
  {
    assert b == a + (b - a);
  }

  /** After `resetQuiz`, pressing submit on a quiz with questions is refused
      and changes nothing. */
  lemma ResetThenSubmit(quiz: seq<QuizQuestion>, st: QuizState, progress: seq<ProgressRow>,
                        skillName: string, phaseName: string, updateOk: bool)
    requires |quiz| > 0
    ensures SubmitOnPage(quiz, ResetQuiz(st), progress, skillName, phaseName, updateOk) == (ResetQuiz(st), progress)
    ensures SubmitInModal(quiz, ResetQuiz(st)) == (ResetQuiz(st), false)
  {
    assert ResetQuiz(st).answers.Keys == {};
  }
}
