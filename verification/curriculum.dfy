/** The Full-Stack learning modules (src/pages/ModuleDetail.tsx): three
    modules of ordered topics, a topic unlocked by passing the previous
    topic's quiz, a step-by-step quiz that passes at 60 percent, per-module
    progress kept in browser storage, and the "next module" chain. Topic
    texts and quiz questions are static content; the quiz of the active
    topic enters as its list of correct option indices. */
module Curriculum {
  import opened Wrappers
  import opened Seqs
  import opened Percent

  // ---------------------------------------------------------------------
  // The modules
  // ---------------------------------------------------------------------

  /** The topic ids of each module in order; `None` for an unknown module
      id, for which the page shows "Module not found". */
  function Topics(moduleId: string): (r: Option<seq<string>>)
    ensures r.Some? <==> moduleId in {"frontend", "backend", "database"}
    ensures r.Some? ==> 0 < |r.value| < 200 && Distinct(r.value)
  {
    if moduleId == "frontend" then Some(["html", "css", "javascript", "react", "typescript"])
    else if moduleId == "backend" then Some(["nodejs", "express", "apis", "authentication"])
    else if moduleId == "database" then Some(["sql", "postgresql", "mongodb", "orm"])
    else None
  }

  /** How many modules remain from `moduleId` to the end of the track,
      itself included. */
  function ModulesLeft(moduleId: string): nat {
    if moduleId == "frontend" then 3
    else if moduleId == "backend" then 2
    else if moduleId == "database" then 1
    else 0
  }

  /** `NEXT_MODULE[moduleId]`, with "" both for the last module and for an
      id missing from the table (`undefined` is falsy too). */
  function NextModule(moduleId: string): (r: string)
    ensures r != "" ==> Topics(r).Some? && Topics(moduleId).Some?
    ensures r != "" ==> ModulesLeft(r) == ModulesLeft(moduleId) - 1
    ensures r == "" <==> ModulesLeft(moduleId) <= 1
  {
    if moduleId == "frontend" then "backend"
    else if moduleId == "backend" then "database"
    else ""
  }

  /** The modules visited by following "next module" from `moduleId`. */
  function Route(moduleId: string): (r: seq<string>)
    ensures |r| == if ModulesLeft(moduleId) == 0 then 1 else ModulesLeft(moduleId)
    decreases ModulesLeft(moduleId)
  {
    var next := NextModule(moduleId);
    if next == "" then [moduleId] else [moduleId] + Route(next)
  }

  /** The track runs frontend, backend, database, and then ends. */
  lemma FullStackRoute()
    ensures Route("frontend") == ["frontend", "backend", "database"]
    ensures forall m :: Topics(m).Some? ==> Route(m)[|Route(m)| - 1] == "database"
  {
    assert Route("database") == ["database"];
    assert Route("backend") == ["backend", "database"];
  }

  datatype Nav = ToModule(moduleId: string) | ToDashboard

  /** `handleNextModule`: on to the next module, or back to the dashboard
      after the last one. */
  function NextModuleNav(moduleId: string): (r: Nav)
    ensures r.ToModule? ==> Topics(r.moduleId).Some? && ModulesLeft(r.moduleId) < ModulesLeft(moduleId)
    ensures r == ToDashboard <==> moduleId !in {"frontend", "backend"}
  {
    var next := NextModule(moduleId);
    if next != "" then ToModule(next) else ToDashboard
  }

  // ---------------------------------------------------------------------
  // Locks and progress
  // ---------------------------------------------------------------------

  /** `isSubheadingLocked(index)`: a topic is locked while the topic before
      it is not completed; the first topic of every module is open. */
  function IsTopicLocked(topics: seq<string>, completed: seq<string>, index: nat): (r: bool)
    requires index < |topics|
    ensures index == 0 ==> !r
    ensures index > 0 ==> (r <==> topics[index - 1] !in completed)
  {
    index > 0 && topics[index - 1] !in completed
  }

  /** `allSubheadingsCompleted`. */
  predicate AllTopicsCompleted(topics: seq<string>, completed: seq<string>) {
    forall i :: 0 <= i < |topics| ==> topics[i] in completed
  }

  /** `progressPercentage`: completed entries over topics, rounded. */
  function ProgressPercentage(topics: seq<string>, completed: seq<string>): (r: nat)
    requires |topics| > 0
    ensures |completed| <= |topics| ==> r <= 100
  {
    RoundedPercentBounds(if |completed| <= |topics| then |completed| else 0, |topics|);
    RoundedPercent(|completed|, |topics|)
  }

  /** A completed list that holds distinct topics of the module measures
      progress faithfully: at most 100, and 100 exactly when every topic is
      completed. */
  lemma ProgressMeansAllCompleted(topics: seq<string>, completed: seq<string>)
    requires |topics| > 0 && Distinct(topics) && |topics| < 200
    requires Distinct(completed) && forall i :: 0 <= i < |completed| ==> completed[i] in topics
    ensures ProgressPercentage(topics, completed) <= 100
    ensures ProgressPercentage(topics, completed) == 100 <==> AllTopicsCompleted(topics, completed)
    ensures |completed| == 0 ==> ProgressPercentage(topics, completed) == 0
  {
    Covers(completed, topics);
    RoundedPercentBounds(|completed|, |topics|);
  }

  /** Completing the first `k` topics in order opens exactly the topics up to
      and including index `k`. */
  lemma InOrderUnlocks(topics: seq<string>, k: nat, index: nat)
    requires Distinct(topics) && k <= |topics| && index < |topics|
    ensures IsTopicLocked(topics, topics[..k], index) <==> index > k
  {
    if index > k {
      forall j | 0 <= j < k
        ensures topics[..k][j] != topics[index - 1]
      {
        assert topics[..k][j] == topics[j];
      }
    } else if index > 0 {
      assert topics[..k][index - 1] == topics[index - 1];
    }
  }

  // ---------------------------------------------------------------------
  // The page state
  // ---------------------------------------------------------------------

  /** The state hooks of the module page. */
  datatype Page = Page(
    moduleId: string,
    active: string,              // activeSubheading
    completed: seq<string>,      // completedSubheadings
    showQuiz: bool,
    question: nat,               // currentQuestionIndex
    selected: Option<int>,       // selectedAnswer, None for null
    score: nat,                  // quizScore
    quizCompleted: bool,
    answered: seq<bool>)         // answeredQuestions

  /** Browser storage: module id to the saved completed list
      (`module_<id>_completed`). */
  type Storage = map<string, seq<string>>

  /** The quiz-related hooks as they are when a topic is opened. */
  function QuizReset(p: Page): (r: Page)
    ensures !r.showQuiz && !r.quizCompleted && r.question == 0 && r.selected.None? && r.score == 0
    ensures r.moduleId == p.moduleId && r.active == p.active && r.completed == p.completed && r.answered == p.answered
  {
    p.(showQuiz := false, quizCompleted := false, question := 0, selected := None, score := 0)
  }

  /** `handleSubheadingClick`: a locked topic only raises a toast; an open
      one becomes active with a fresh quiz. */
  function TopicClick(p: Page, topics: seq<string>, topicId: string, index: nat): (r: Page)
    requires index < |topics|
    ensures IsTopicLocked(topics, p.completed, index) ==> r == p
    ensures !IsTopicLocked(topics, p.completed, index) ==>
      && r.active == topicId && r.completed == p.completed && r.moduleId == p.moduleId
      && !r.showQuiz && !r.quizCompleted && r.question == 0 && r.selected.None? && r.score == 0
      && r.answered == []
  {
    if IsTopicLocked(topics, p.completed, index) then p
    else QuizReset(p).(active := topicId, answered := [])
  }

  /** A click opens a topic only when it is unlocked: with the first k
      topics of the module completed in order, clicking topic `index` opens
      it exactly when `index <= k`. */
  lemma ClickOpensOnlyUnlocked(p: Page, topics: seq<string>, k: nat, index: nat)
    requires Distinct(topics) && k <= |topics| && index < |topics|
    requires p.completed == topics[..k] && p.active != topics[index]
    ensures TopicClick(p, topics, topics[index], index).active == topics[index] <==> index <= k
    ensures index > k ==> TopicClick(p, topics, topics[index], index) == p
  {
    InOrderUnlocks(topics, k, index);
  }

  /** `handleStartQuiz`; `key` is the active topic's list of correct option
      indices, `None` when the active id names no topic. */
  function StartQuiz(p: Page, key: Option<seq<int>>): (r: Page)
    ensures r.showQuiz && !r.quizCompleted && r.question == 0 && r.selected.None? && r.score == 0
    ensures |r.answered| == (if key.Some? then |key.value| else 0)
    ensures forall i :: 0 <= i < |r.answered| ==> !r.answered[i]
    ensures r.moduleId == p.moduleId && r.active == p.active && r.completed == p.completed
  {
    var n := if key.Some? then |key.value| else 0;
    QuizReset(p).(showQuiz := true, answered := seq(n, _ => false))
  }

  /** `handleAnswerSelect`: ignored once the current question is answered. */
  function AnswerSelect(p: Page, option: int): (r: Page)
    ensures p.question < |p.answered| && p.answered[p.question] ==> r == p
    ensures !(p.question < |p.answered| && p.answered[p.question]) ==> r == p.(selected := Some(option))
  {
    if p.question < |p.answered| && p.answered[p.question] then p
    else p.(selected := Some(option))
  }

  /** Array assignment `a[i] = true` in JavaScript: beyond the end, the
      array grows and the gap reads as unanswered. */
  function SetAnswered(answered: seq<bool>, i: nat): (r: seq<bool>)
    ensures |r| == if i < |answered| then |answered| else i + 1
    ensures r[i]
    ensures forall j :: 0 <= j < |r| && j != i ==> r[j] == (j < |answered| && answered[j])
  {
    if i < |answered| then answered[i := true]
    else answered + seq(i - |answered|, _ => false) + [true]
  }

  /** `Math.ceil(n * 0.6)` in exact arithmetic. */
  function PassMark(n: nat): (t: nat)
    ensures 5 * t >= 3 * n && 5 * t < 3 * n + 5
    ensures n == 3 ==> t == 2
  {
    (3 * n + 4) / 5
  }

  /** `handleNextQuestion`. Without a selection (or without an active
      topic) nothing happens; reading a question past the end of the quiz
      throws before any state changes. Otherwise the question is marked
      answered and scored, and either the next question comes up or the
      quiz ends; a passing final score appends the active topic to the
      completed list and saves it. */
  function NextQuestion(p: Page, key: Option<seq<int>>, store: Storage): (r: (Page, Storage))
    ensures p.selected.None? || key.None? || p.question >= |key.value| ==> r == (p, store)
    ensures r.0.moduleId == p.moduleId && r.0.active == p.active && r.0.showQuiz == p.showQuiz
    ensures r.0.completed == p.completed || r.0.completed == p.completed + [p.active]
    ensures r.0.completed != p.completed ==> r.1 == store[p.moduleId := r.0.completed]
    ensures r.0.completed == p.completed ==> r.1 == store
  {
    if p.selected.None? || key.None? || p.question >= |key.value| then (p, store)
    else
      var quiz := key.value;
      var correct := p.selected.value == quiz[p.question];
      var score := if correct then p.score + 1 else p.score;
      var answered := SetAnswered(p.answered, p.question);
      if p.question < |quiz| - 1 then
        (p.(answered := answered, score := score, question := p.question + 1, selected := None), store)
      else if score >= PassMark(|quiz|) then
        var completed := p.completed + [p.active];
        (p.(answered := answered, score := score, completed := completed, quizCompleted := true),
         store[p.moduleId := completed])
      else
        (p.(answered := answered, score := score, quizCompleted := true), store)
  }

  /** Choosing `option` for the current question and pressing Next. */
  function Answer(p: Page, key: seq<int>, store: Storage, option: int): (Page, Storage) {
    NextQuestion(AnswerSelect(p, option), Some(key), store)
  }

  /** Answering `picks` one after another. */
  function Run(p: Page, key: seq<int>, store: Storage, picks: seq<int>): (Page, Storage)
    decreases |picks|
  {
    if |picks| == 0 then (p, store)
    else
      var before := Run(p, key, store, picks[..|picks| - 1]);
      Answer(before.0, key, before.1, picks[|picks| - 1])
  }

  /** How many of `picks` equal the correct option at their position. */
  function Matches(picks: seq<int>, key: seq<int>): (r: nat)
    requires |picks| <= |key|
    ensures r <= |picks|
  {
    if |picks| == 0 then 0
    else Matches(picks[..|picks| - 1], key) + (if picks[|picks| - 1] == key[|picks| - 1] then 1 else 0)
  }

  /** The state after `j` answers, the quiz still running. */
  predicate Midway(p: Page, q: Page, key: seq<int>, j: nat, picks: seq<int>)
    requires j == |picks| <= |key|
  {
    && q.moduleId == p.moduleId && q.active == p.active && q.completed == p.completed
    && q.showQuiz && !q.quizCompleted && q.question == j && q.selected.None?
    && q.score == Matches(picks, key)
    && q.answered == seq(|key|, i => i < j)
  }

  /** A quiz taken from the start scores the number of right answers; the
      topic is completed and saved exactly when that number reaches the
      60 percent mark, and after the last question further selections are
      ignored. */
  lemma {:induction false} QuizRun(p: Page, key: seq<int>, store: Storage, picks: seq<int>)
    requires 0 < |key| && |picks| <= |key|
    ensures var r := Run(StartQuiz(p, Some(key)), key, store, picks);
      && (|picks| < |key| ==> Midway(p, r.0, key, |picks|, picks) && r.1 == store)
      && (|picks| == |key| ==> Finished(p, r, key, store, picks))
    decreases |picks|
  {
    var start := StartQuiz(p, Some(key));
    if |picks| == 0 {
      assert start.answered == seq(|key|, i => i < 0);
    } else {
      var init := picks[..|picks| - 1];
      QuizRun(p, key, store, init);
      AnswerStep(p, Run(start, key, store, init).0, key, store, picks);
    }
  }

  /** The state after the last answer: the quiz is over with the score of
      the right picks, the topic is completed and saved exactly at the pass
      mark, and further selections are ignored. */
  ghost predicate Finished(p: Page, r: (Page, Storage), key: seq<int>, store: Storage, picks: seq<int>)
    requires |picks| == |key|
  {
    && r.0.quizCompleted && r.0.score == Matches(picks, key)
    && r.0.active == p.active && r.0.moduleId == p.moduleId
    && (Matches(picks, key) >= PassMark(|key|) ==>
          r.0.completed == p.completed + [p.active] && r.1 == store[p.moduleId := r.0.completed])
    && (Matches(picks, key) < PassMark(|key|) ==> r.0.completed == p.completed && r.1 == store)
    && forall option :: AnswerSelect(r.0, option) == r.0
  }

  /** One answer in the middle of a quiz: the next question comes up, or,
      after the last one, the quiz is finished. */
  lemma AnswerStep(p: Page, q: Page, key: seq<int>, store: Storage, picks: seq<int>)
    requires 0 < |picks| <= |key|
    requires Midway(p, q, key, |picks| - 1, picks[..|picks| - 1])
    ensures var r := Answer(q, key, store, picks[|picks| - 1]);
      && (|picks| < |key| ==> Midway(p, r.0, key, |picks|, picks) && r.1 == store)
      && (|picks| == |key| ==> Finished(p, r, key, store, picks))
  {
    var init := picks[..|picks| - 1];
    var j := |init|;
    var selected := AnswerSelect(q, picks[j]);
    assert !q.answered[j];
    assert selected == q.(selected := Some(picks[j]));
    var answered := SetAnswered(q.answered, j);
    assert answered == seq(|key|, i => i < j + 1);
    assert Matches(picks, key) == Matches(init, key) + (if picks[j] == key[j] then 1 else 0);
  }

  /** `handleMoveToNextSubheading`: the next topic becomes active with the
      quiz hooks reset (the answered flags are left as they are); on the
      last topic nothing happens. */
  function MoveToNextTopic(p: Page, topics: seq<string>): (r: Page)
    ensures var i := IndexOrMinusOne(topics, p.active);
      && (i < |topics| - 1 ==> r == QuizReset(p).(active := topics[i + 1]))
      && (i == |topics| - 1 ==> r == p)
  {
    var i := IndexOrMinusOne(topics, p.active);
    if i < |topics| - 1 then QuizReset(p).(active := topics[i + 1]) else p
  }

  /** The Continue button appears for a completed topic; the topic it moves
      to is the following one and is open. */
  lemma ContinueOpensNext(p: Page, topics: seq<string>, i: nat)
    requires Distinct(topics) && i + 1 < |topics| && p.active == topics[i] && p.active in p.completed
    ensures MoveToNextTopic(p, topics).active == topics[i + 1]
    ensures !IsTopicLocked(topics, MoveToNextTopic(p, topics).completed, i + 1)
  {
    FirstIndexOfDistinct(topics, i);
  }

  // ---------------------------------------------------------------------
  // Loading a module: as written, and corrected
  // ---------------------------------------------------------------------

  /** The load effect as written, run when the module id changes: the saved
      list replaces the completed list only if one exists, so a module with
      nothing saved keeps the list of the module shown before it. The first
      topic becomes active. */
  function LoadAsWritten(p: Page, store: Storage, moduleId: string): (r: Page)
    ensures moduleId in store ==> r.completed == store[moduleId]
    ensures moduleId !in store ==> r.completed == p.completed
    ensures Topics(moduleId).Some? ==> r.active == Topics(moduleId).value[0]
  {
    var completed := if moduleId in store then store[moduleId] else p.completed;
    var active := if Topics(moduleId).Some? then Topics(moduleId).value[0] else p.active;
    p.(moduleId := moduleId, completed := completed, active := active)
  }

  /** Finishing the frontend module and going on to the backend module, as
      written, shows 125 percent progress: the five frontend topics are
      counted against the four backend topics. */
  lemma StaleProgressAsWritten()
    ensures var frontend := Topics("frontend").value;
      var p := Page("frontend", "typescript", frontend, false, 0, None, 0, false, []);
      var q := LoadAsWritten(p, map["frontend" := frontend], NextModule("frontend"));
      && q.moduleId == "backend"
      && q.completed == frontend
      && ProgressPercentage(Topics("backend").value, q.completed) == 125
  {
  }

  /** The load effect with the evidently intended behaviour: a module with
      nothing saved starts with no completed topics. */
  function Load(p: Page, store: Storage, moduleId: string): (r: Page)
    ensures r.completed == if moduleId in store then store[moduleId] else []
    ensures Topics(moduleId).Some? ==> r.active == Topics(moduleId).value[0]
  {
    var completed := if moduleId in store then store[moduleId] else [];
    var active := if Topics(moduleId).Some? then Topics(moduleId).value[0] else p.active;
    p.(moduleId := moduleId, completed := completed, active := active)
  }

  /** Every saved list holds distinct topics of its own module. */
  predicate StorageWf(store: Storage) {
    forall m :: m in store ==>
      && Topics(m).Some?
      && Distinct(store[m])
      && forall i :: 0 <= i < |store[m]| ==> store[m][i] in Topics(m).value
  }

  /** The page's completed list holds distinct topics of its module. */
  predicate PageWf(p: Page) {
    && Topics(p.moduleId).Some?
    && p.active in Topics(p.moduleId).value
    && Distinct(p.completed)
    && (forall i :: 0 <= i < |p.completed| ==> p.completed[i] in Topics(p.moduleId).value)
  }

  /** After the corrected load of a known module, progress stays within
      0..100 and reads 100 exactly when every topic is completed. */
  lemma LoadKeepsProgressInRange(p: Page, store: Storage, moduleId: string)
    requires StorageWf(store) && Topics(moduleId).Some?
    ensures PageWf(Load(p, store, moduleId))
    ensures var q := Load(p, store, moduleId);
      && ProgressPercentage(Topics(moduleId).value, q.completed) <= 100
      && ((ProgressPercentage(Topics(moduleId).value, q.completed) == 100)
            <==> AllTopicsCompleted(Topics(moduleId).value, q.completed))
  {
    var q := Load(p, store, moduleId);
    ProgressMeansAllCompleted(Topics(moduleId).value, q.completed);
  }

  /** The quiz is offered only for a topic not yet completed; answering it
      keeps both the page and the storage well formed. */
  lemma NextQuestionKeepsWf(p: Page, key: Option<seq<int>>, store: Storage)
    requires PageWf(p) && StorageWf(store) && p.active !in p.completed
    ensures PageWf(NextQuestion(p, key, store).0)
    ensures StorageWf(NextQuestion(p, key, store).1)
  {
    var r := NextQuestion(p, key, store);
    if r.0.completed != p.completed {
      assert r.0.completed == p.completed + [p.active];
      assert Distinct(r.0.completed) by {
        forall i, j | 0 <= i < j < |r.0.completed|
          ensures r.0.completed[i] != r.0.completed[j]
        {
          if j == |p.completed| {
            assert r.0.completed[i] == p.completed[i];
          }
        }
      }
      assert StorageWf(r.1) by {
        forall m | m in r.1
          ensures Topics(m).Some? && Distinct(r.1[m])
          ensures forall i :: 0 <= i < |r.1[m]| ==> r.1[m][i] in Topics(m).value
        {
          if m != p.moduleId {
            assert r.1[m] == store[m];
          }
        }
      }
    }
  }
}
