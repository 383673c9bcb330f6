# skill-navigator, modelled in Dafny

skill-navigator is a learning-path web application. A user takes a short
general assessment, picks a career, and fills in an onboarding form. An edge
function then asks an AI gateway for a roadmap of phases of skills. The user
works through the skills, each unlocked by a quiz on the one before it. A
fixed Full-Stack track of three modules works the same way, with its own
quiz rule. A dashboard shows streaks, goal progress and a seven-day chart.

This project models that logic as pure functions over immutable data and
proves what the pages promise about it:

| file | module | models |
|---|---|---|
| `roadmap.dfy` | `Roadmap` | roadmap documents, progress rows, and the skill page's unlock chain across phases |
| `quiz.dfy` | `Quiz` | quiz grading and the quiz state of the skill page and the skill dialog |
| `resources.dfy` | `Resources` | resource links and labels (skill page, skill dialog, shared page) |
| `curriculum.dfy` | `Curriculum` | the three-module track: topic locks, the step-by-step quiz, stored progress, the next-module chain (its page has no route in `src/App.tsx:26-37`, so it is reachable only once routed) |
| `activity.dfy` | `Activity` | the activity dashboard: windows and sums, the streak, percentages, the chart, the time format |
| `generation.dfy` | `Generation` | the `generate-roadmap` request handler |
| `dashboard.dfy` | `Dashboard` | the profile stages and which panel the dashboard shows |
| `assessment.dfy` | `Assessment` | the four-question general assessment |
| `onboarding.dfy` | `Onboarding` | the onboarding form and its completion |
| `shared.dfy` | `Shared` | the public shared-roadmap page |
| `notes.dfy` | `Notes` | per-skill personal notes |
| `wrappers.dfy`, `text.dfy`, `seqs.dfy`, `percent.dfy` | | `Option`, string helpers, list helpers, rounded percentages |

Modelling choices:

- **Stores.** The Supabase tables and browser storage are sequences or maps passed in and returned.
- **Foreign results as inputs.** Whether a query succeeds is an input. So are the AI gateway's reply, `JSON.parse` and `new URL(...).hostname`.
- **Dates.** Dates are whole day numbers, and `today` is a parameter.
- **Rounding.** `Math.round` and `Math.ceil` on a quotient are exact integer formulas.
  - `Math.round((p / w) * 100)` is modelled as the exact rational 100p/w rounded half up, `(200p + w) / (2w)`. The source computes in doubles, which can land just below a half (see "## Left out").
  - `Math.ceil(0.67n)` is `(67n + 99) / 100`. It agrees with the floating-point product for every n below 100.
  - `Math.ceil(0.6n)` is `(3n + 4) / 5`.
- **Three-question quizzes.** The skill page and the skill dialog say "Answer at least 2 out of 3 questions correctly". The code requires `Math.ceil(3 * 0.67) = 3`. The model follows the code, and `Quiz.ThreeQuestionQuiz` states the consequence: all three answers must be right.

## Model

| member | source | states |
|---|---|---|
| Roadmap.FindRow | src/pages/SkillDetail.tsx:145-147 | the first progress row for the (skill, phase) pair; none exactly when no row matches |
| Roadmap.IsSkillCompleted | src/pages/SkillDetail.tsx:138-140 | the first row for the pair decides: the pair reads as completed exactly when that row is; a pair without a row reads as not completed |
| Roadmap.MarkSkillComplete | src/pages/SkillDetail.tsx:142-172 | nothing changes without a row or when the database update fails; otherwise ids and names stay, no completed flag is cleared, and with unique ids only the found row changes |
| Roadmap.FindRowAfterMark | src/pages/SkillDetail.tsx:162-166 | marking never changes which row any pair finds |
| Roadmap.MarkCompletes | src/pages/SkillDetail.tsx:142-172 | after a successful update the pair reads as completed exactly when it has a row; after a failed one its status is unchanged |
| Roadmap.MarkKeepsOthers | src/pages/SkillDetail.tsx:162-166 | with unique row ids, marking one pair leaves every other pair's status unchanged |
| Roadmap.Locate | src/pages/SkillDetail.tsx:179-181 | the indices of the first phase of that name and of the first skill of that name in it; none when the phase name is absent, or when that phase lacks the skill name |
| Roadmap.LocateWellKeyed | src/pages/SkillDetail.tsx:179-181 | with unique names, every skill is located at its own indices |
| Roadmap.CheckIsLocked | src/pages/SkillDetail.tsx:176-195 | the first skill of the first phase is never locked; a name the roadmap lacks is an error |
| Roadmap.LockedMessage | src/pages/SkillDetail.tsx:197-212 | an absent phase name or an empty previous phase is an error; an absent skill name and the very first skill give the empty text; otherwise the text asks to complete the predecessor the lock consults |
| Roadmap.LockedMessageNamesBlocker | src/pages/SkillDetail.tsx:176-212 | whenever the page is locked, the message names exactly the skill whose missing completion locks it |
| Roadmap.LockedMessageInChain | src/pages/SkillDetail.tsx:183-212 | with unique names and no empty phase, every skill but the first of the chain is announced with the name of the chain entry before it |
| Roadmap.TimeDisplay | src/pages/SkillDetail.tsx:295 | `days`, else `estimatedTime`, else "N/A", empty texts counting as absent; never empty, and "N/A" exactly when no usable text is given or the one shown says "N/A" |
| Roadmap.FlattenAt | src/pages/SkillDetail.tsx:183-194 | skill `si` of phase `pi` sits at position `Offset(pi) + si` of the phase-then-skill chain |
| Roadmap.PredecessorIsPreviousInChain | src/pages/SkillDetail.tsx:183-194 | with no empty phase, the skill the lock consults is the previous entry of the chain, across phase boundaries; only position 0 has none |
| Roadmap.LockChain | src/pages/SkillDetail.tsx:176-195 | the skill at chain position k is locked exactly when k > 0 and the skill at k-1 is not completed |
| Roadmap.MarkUnlocksOnlySuccessor | src/pages/SkillDetail.tsx:162-195 | completing one skill, whether or not the update succeeds, changes the lock of no skill except the one right after it in the chain |
| Quiz.PassThreshold | src/pages/SkillDetail.tsx:233 | the least t with 100t >= 67n, that is `Math.ceil(n * 0.67)`; 3 for a three-question quiz |
| Quiz.ScoreBounded | src/pages/SkillDetail.tsx:228-231 | the score never exceeds the number of questions |
| Quiz.CountCorrect | src/pages/SkillDetail.tsx:228-231 | the counting loop yields exactly the number of questions whose answer equals `correctAnswer` |
| Quiz.Grade | src/pages/SkillDetail.tsx:219-233 | refused before scoring exactly when fewer answers than questions are given; otherwise the score counts exact matches and the quiz passes exactly when 100 * score >= 67n |
| Quiz.GradedMeansAllAnswered | src/pages/SkillDetail.tsx:221-224 | with answers only for real questions, a graded quiz has every question answered |
| Quiz.ThreeQuestionQuiz | src/pages/SkillDetail.tsx:233 | a three-question quiz passes only with all three right |
| Quiz.AnswerChange | src/pages/SkillDetail.tsx:215-217 | records the answer of one question and keeps the others |
| Quiz.ResetQuiz | src/components/SkillDetailModal.tsx:114-118 | clears the answers and the submitted and passed flags |
| Quiz.SubmitOnPage | src/pages/SkillDetail.tsx:219-244 | an incomplete submission changes nothing; otherwise submitted, passed exactly at the threshold; on a pass with a successful update the skill reads as completed when it has a row; a fail or a failed update leaves progress as it was |
| Quiz.SubmitInModal | src/components/SkillDetailModal.tsx:87-112 | `onComplete` runs exactly when a complete submission reaches the threshold, and agrees with the passed flag |
| Quiz.PassHidesQuiz | src/pages/SkillDetail.tsx:416 | passing on the skill page with a successful update hides the quiz block; after a failed update the block stays exactly as visible as before |
| Quiz.AnswerAllGrades | src/pages/SkillDetail.tsx:215-224 | answering questions 0 .. n-1 in turn makes the submission of an n-question quiz gradable |
| Quiz.ResetThenSubmit | src/pages/SkillDetail.tsx:219-250 | right after `resetQuiz`, submitting a quiz with questions is refused and changes nothing, on the page and in the dialog |
| Resources.StripYouTubePrefix | src/pages/SkillDetail.tsx:263 | removes a leading `YouTube:` in any letter case and the whitespace after it, and nothing else |
| Resources.ResourceLink | src/pages/SkillDetail.tsx:260-267 | an http resource links to itself; a YouTube one searches YouTube for the stripped title; anything else searches Google for the resource and the skill name |
| Resources.ResourceLabel | src/components/SkillDetailModal.tsx:136-149 | an http resource shows its host without a leading `www.`, or "Documentation" when unparsable; other non-YouTube resources show themselves |
| Resources.SharedHref | src/pages/SharedRoadmap.tsx:248-257 | http resources unchanged; other non-YouTube resources search Google for the resource alone |
| Resources.YouTubeLabelIsQuery | src/components/SkillDetailModal.tsx:127-148 | a YouTube resource is labelled with exactly the text its link searches for |
| Resources.SharedHrefMatchesSkillLink | src/pages/SharedRoadmap.tsx:248-257 | the shared page links like the skill page, except that its Google query lacks the skill name |
| Resources.TaggedTitleSearchesYouTube | src/pages/SkillDetail.tsx:260-265 | a `YouTube:`-tagged title always becomes a YouTube search for the text after the tag |
| Curriculum.Topics | src/pages/ModuleDetail.tsx:47-331 | exactly the three modules have topics, each module's topic ids are distinct and non-empty |
| Curriculum.NextModule | src/pages/ModuleDetail.tsx:333-337 | the next module is a real module one step nearer the end; none after the database module |
| Curriculum.Route | src/pages/ModuleDetail.tsx:333-337 | following "next module" terminates, visiting one module per remaining step |
| Curriculum.FullStackRoute | src/pages/ModuleDetail.tsx:450-457 | the chain runs frontend, backend, database, and every module's chain ends at database |
| Curriculum.NextModuleNav | src/pages/ModuleDetail.tsx:450-458 | the dashboard is the destination exactly after the database module (or an unknown one) |
| Curriculum.IsTopicLocked | src/pages/ModuleDetail.tsx:381-385 | the first topic of every module is open, whatever other modules hold; any later topic is locked exactly when the topic before it is not completed |
| Curriculum.AllTopicsCompleted | src/pages/ModuleDetail.tsx:387 | every topic of the module is in the completed list (the condition for 100 percent, see `Curriculum.ProgressMeansAllCompleted`) |
| Curriculum.ProgressPercentage | src/pages/ModuleDetail.tsx:388 | at most 100 while the list is no longer than the module |
| Curriculum.ProgressMeansAllCompleted | src/pages/ModuleDetail.tsx:387-388 | for distinct topics of the module, progress is in 0..100, 0 when none are completed, and 100 exactly when every topic is completed |
| Curriculum.InOrderUnlocks | src/pages/ModuleDetail.tsx:381-385 | with the first k topics completed, exactly the topics up to index k are open |
| Curriculum.TopicClick | src/pages/ModuleDetail.tsx:390-402 | a locked topic changes nothing; an open one becomes active with a fresh quiz and the completed list kept |
| Curriculum.ClickOpensOnlyUnlocked | src/pages/ModuleDetail.tsx:381-402 | with the first k topics completed in order, a click opens topic i exactly when i <= k; a click on a later topic changes nothing |
| Curriculum.StartQuiz | src/pages/ModuleDetail.tsx:404-411 | the quiz starts at question 0 with score 0 and one unanswered flag per question |
| Curriculum.AnswerSelect | src/pages/ModuleDetail.tsx:413-416 | a selection for an already answered question is ignored |
| Curriculum.SetAnswered | src/pages/ModuleDetail.tsx:422-423 | the question is marked answered, the array growing past its end if needed, and no other flag changes |
| Curriculum.PassMark | src/pages/ModuleDetail.tsx:436 | the least t with 5t >= 3n, that is `Math.ceil(n * 0.6)`; 2 of 3 |
| Curriculum.NextQuestion | src/pages/ModuleDetail.tsx:418-448 | no selection, no topic or no such question changes nothing; the completed list only ever gains the active topic, and storage changes exactly when it does |
| Curriculum.QuizRun | src/pages/ModuleDetail.tsx:413-448 | a quiz answered from the start scores the number of right picks; the topic is appended and saved exactly at the 60 percent mark, a fail changes neither, and later selections are ignored |
| Curriculum.MoveToNextTopic | src/pages/ModuleDetail.tsx:460-470 | the following topic becomes active with the quiz reset; on the last topic nothing changes |
| Curriculum.ContinueOpensNext | src/pages/ModuleDetail.tsx:460-470 | after a completed topic, moving on opens exactly the next topic, which is unlocked |
| Curriculum.LoadAsWritten | src/pages/ModuleDetail.tsx:353-363 | the saved list replaces the completed list only when one exists; otherwise the previous module's list is kept |
| Curriculum.StaleProgressAsWritten | src/pages/ModuleDetail.tsx:353-363 | as written, moving from a finished frontend module to backend shows 125 percent |
| Curriculum.Load | src/pages/ModuleDetail.tsx:353-363 | corrected: a module with nothing saved starts empty; the first topic becomes active |
| Curriculum.LoadKeepsProgressInRange | src/pages/ModuleDetail.tsx:353-388 | after the corrected load, progress is in 0..100 and is 100 exactly when every topic is completed |
| Curriculum.NextQuestionKeepsWf | src/pages/ModuleDetail.tsx:438-441 | answering the quiz of an uncompleted topic keeps the page's and the storage's lists distinct topics of their modules |
| Percent.RoundedPercent | src/pages/ModuleDetail.tsx:388 | the integer nearest to 100 * part / whole, halves rounded up |
| Percent.RoundedPercentBounds | src/components/ProgressDashboard.tsx:157-161 | a part of a whole gives 0..100, 0 for nothing, 100 for all, and below 100 for a proper part of fewer than 200 |
| Activity.Since | src/components/ProgressDashboard.tsx:96-97 | exactly the rows dated on or after the bound |
| Activity.Total | src/components/ProgressDashboard.tsx:90 | at least every row's minutes, and 0 exactly when no row has minutes |
| Activity.MinutesSince | src/components/ProgressDashboard.tsx:94-98 | at most the total, at least each counted row's minutes, and the total when every row is in the window |
| Activity.Weekly | src/components/ProgressDashboard.tsx:94-98 | the minutes of the last seven days: at most the total and at least each of those rows' minutes |
| Activity.Fetched | src/components/ProgressDashboard.tsx:74-82 | exactly the rows of the last 30 days |
| Activity.TotalSince | src/components/ProgressDashboard.tsx:90-98 | summing the filtered rows equals summing with the filter |
| Activity.NestedWindows | src/components/ProgressDashboard.tsx:94-98 | a window inside the fetched window sees the same minutes as on all rows |
| Activity.WindowAtMostTotal | src/components/ProgressDashboard.tsx:90-98 | a window's minutes never exceed the total |
| Activity.DashboardTotals | src/components/ProgressDashboard.tsx:73-99 | the total is the minutes of the last 30 days, the weekly figure those of the last seven, and weekly <= total |
| Activity.Insert | src/components/ProgressDashboard.tsx:128-130 | inserting keeps the rows newest first and is a permutation |
| Activity.SortDesc | src/components/ProgressDashboard.tsx:128-130 | sorts newest first, as a permutation of the rows |
| Activity.SortSorted | src/components/ProgressDashboard.tsx:128-130 | rows already newest first are left in place |
| Activity.InsertOnDay | src/components/ProgressDashboard.tsx:128-130 | an inserted row goes ahead of every row of its own day and leaves their order alone |
| Activity.SortStable | src/components/ProgressDashboard.tsx:128-130 | the sort is stable: the rows of each day keep their input order, so the walk reads the same row per day as the source |
| Activity.WalkAsWritten | src/components/ProgressDashboard.tsx:132-147 | the loop as written counts at most the remaining rows |
| Activity.StreakAsWritten | src/components/ProgressDashboard.tsx:117-150 | as written: no rows give 0, and the streak never exceeds the number of rows |
| Activity.CountBack | src/components/ProgressDashboard.tsx:136-140 | the longest run of rows on consecutive days back from the anchor, all with minutes, stopping at the first gap |
| Activity.Streak | src/components/ProgressDashboard.tsx:117-150 | corrected streak: no rows give 0, and it never exceeds the number of rows |
| Activity.ConsecutiveSorted | src/components/ProgressDashboard.tsx:128-130 | a run of consecutive days is already newest first |
| Activity.CountBackWhole | src/components/ProgressDashboard.tsx:136-140 | a run of consecutive active days counts in full |
| Activity.WalkIsCountBack | src/components/ProgressDashboard.tsx:132-147 | after the first row, the loop as written counts exactly the consecutive run |
| Activity.WalkFromToday | src/components/ProgressDashboard.tsx:132-147 | starting from an active today, the loop counts exactly the run |
| Activity.StreakFromToday | src/components/ProgressDashboard.tsx:132-147 | whenever today has minutes, the streak as written equals the corrected one |
| Activity.IdleToday | src/components/ProgressDashboard.tsx:139-146 | a newest row dated today without minutes gives 0, as written and corrected |
| Activity.TodayRun | src/components/ProgressDashboard.tsx:136-140 | k active days ending today give a streak of k |
| Activity.YesterdayRunAsWritten | src/components/ProgressDashboard.tsx:136-143 | as written, with one row per day, a newest row dated yesterday gives a streak of exactly 1, with or without minutes and however many active days precede it |
| Activity.SortDistinct | src/components/ProgressDashboard.tsx:128-130 | sorting keeps one row per day |
| Activity.YesterdayRun | src/components/ProgressDashboard.tsx:136-143 | corrected, a run of k active days ending yesterday gives k |
| Activity.StreakIsRun | src/components/ProgressDashboard.tsx:132-147 | a positive corrected streak k counts rows on consecutive days from today, or from yesterday, and the row after them breaks the run |
| Activity.GoalHours | src/components/ProgressDashboard.tsx:153 | the goal falls back from the goal hours to the weekly hours to 10, and is never 0 |
| Activity.WeeklyGoalProgress | src/components/ProgressDashboard.tsx:152-155 | in 0..100, and 0 without minutes |
| Activity.GoalReached | src/components/ProgressDashboard.tsx:152-155 | the bar is full exactly when the minutes reach 99.5 percent of the goal |
| Activity.GoalProgressMonotone | src/components/ProgressDashboard.tsx:152-155 | more minutes never lower the progress |
| Activity.CountCompleted | src/components/ProgressDashboard.tsx:159 | the completed rows: all of them exactly when every flag is set, none exactly when none is |
| Activity.CompletionRate | src/components/ProgressDashboard.tsx:157-161 | in 0..100; 0 without rows or with none completed; 100 when all are |
| Activity.FindDay | src/components/ProgressDashboard.tsx:169 | the first row of the day; none exactly when no row has that day |
| Activity.PointOf | src/components/ProgressDashboard.tsx:169-174 | the entry is dated the given day, shows the first row of that day, and zeros when no row has that day |
| Activity.PointShowsRow | src/components/ProgressDashboard.tsx:169-174 | with one row per day, a day's chart entry shows that row's figures |
| Activity.ChartData | src/components/ProgressDashboard.tsx:163-177 | exactly seven entries, for the six days before today and today, oldest first, each the day's figures or zeros |
| Activity.FormatTime | src/components/ProgressDashboard.tsx:179-184 | "Mm" below an hour and "Hh" on whole hours |
| Activity.ParseFormatTime | src/components/ProgressDashboard.tsx:179-184 | the formatted text reads back as the minutes given: hours and minutes split as 60h + m |
| Generation.SkillsLine | supabase/functions/generate-roadmap/index.ts:65 | "None specified" without skills; a single skill alone |
| Generation.UserPrompt | supabase/functions/generate-roadmap/index.ts:61-68 | the prompt opens with the target; `Generation.PromptMentions` shows it names every existing skill |
| Generation.PromptMentions | supabase/functions/generate-roadmap/index.ts:61-68 | the user prompt names the target and every existing skill |
| Generation.Handle | supabase/functions/generate-roadmap/index.ts:9-150 | the store only grows, by one row at most; preflight answers 200; a missing key or body fails with 500 before the gateway; 429 and 402 pass through with their messages; other failures, missing or unparsable content give 500; a row is stored only after every check passed, and success returns it |
| Generation.HandleMatchesTable | supabase/functions/generate-roadmap/index.ts:86-142 | the status agrees with an independent decision table over the inputs, and a roadmap is stored exactly when a POST is answered 200 |
| Generation.StatusesAnswered | supabase/functions/generate-roadmap/index.ts:86-149 | only 200, 402, 429 and 500 are answered, and 402 and 429 only when the gateway sent them |
| Dashboard.ExactlyOnePanel | src/pages/Dashboard.tsx:219-296 | for every profile, roadmap and view exactly one panel renders, and the full dashboard needs all four conditions |
| Dashboard.GeneralDone | src/pages/Dashboard.tsx:79 | the assessment is done when some existing skill starts with `General_Q4`; a missing profile or skill list means not done |
| Dashboard.CareerSelected | src/pages/Dashboard.tsx:80 | a career is selected when the target is neither null nor empty |
| Dashboard.ShowFullDashboard | src/pages/Dashboard.tsx:159 | all of assessment, career, onboarding and a roadmap are present |
| Dashboard.Panels | src/pages/Dashboard.tsx:219-296 | the panels whose render conditions hold; `Dashboard.ExactlyOnePanel` shows there is always exactly one |
| Dashboard.Stage | src/pages/Dashboard.tsx:219-296 | the first missing step of assessment, career, onboarding and roadmap, else the chosen view |
| Dashboard.SelectCareer | src/pages/Dashboard.tsx:133-149 | sets the target, clears `onboarding_completed`, keeps the skills; a failed update changes nothing |
| Dashboard.SelectCareerStages | src/pages/Dashboard.tsx:258-262 | after the assessment, a career leads to onboarding and the empty career back to the career choice |
| Dashboard.NewRoadmap | src/pages/Dashboard.tsx:287-290 | after a successful update only `onboarding_completed` is cleared; the error is never looked at, so a failed update leaves the profile as it was |
| Dashboard.NewRoadmapStage | src/pages/Dashboard.tsx:287-290 | from the full dashboard, a successful "New roadmap" leads to onboarding; after a failed update the reload shows the same panel as before |
| Dashboard.LatestRoadmap | src/pages/Dashboard.tsx:112-118 | one of the user's roadmaps, created no earlier than any other of theirs; none exactly when they have none |
| Dashboard.NewestIsCurrent | src/pages/Dashboard.tsx:112-118 | a roadmap created after all others becomes the current one |
| Assessment.Select | src/components/GeneralAssessment.tsx:57-66 | the choice is appended; before the last question the step advances, at the last the answers are submitted |
| Assessment.ChooseRun | src/components/GeneralAssessment.tsx:57-66 | up to four choices, the answers are the choices in order, the step stays in 0..3, and only the fourth choice finishes |
| Assessment.Tags | src/components/GeneralAssessment.tsx:73 | one tag per answer in order, entry i being `General_Q<i+1>: <answer>` |
| Assessment.TagsMarkDone | src/components/GeneralAssessment.tsx:73 | the tags of at most four answers mark the assessment done exactly when there are four |
| Assessment.FinishAssessment | src/components/GeneralAssessment.tsx:68-95 | on success the tags replace `existing_skills` and `onComplete` runs; a failure changes nothing |
| Assessment.AssessmentUnlocksCareer | src/components/GeneralAssessment.tsx:57-88 | four choices finish the assessment, and the dashboard moves to the career choice when none is set |
| Onboarding.AddSkill | src/components/Onboarding.tsx:74-79 | a new non-empty skill is appended, an empty or present one ignored, and the input always cleared |
| Onboarding.RemoveSkill | src/components/Onboarding.tsx:81-83 | the skill is gone and every other skill stays |
| Onboarding.RemoveUndoesAdd | src/components/Onboarding.tsx:74-83 | removing a just-added skill gives back the list |
| Onboarding.Next | src/components/Onboarding.tsx:85-95 | blocked at step 1 without education and at step 3 without a target; otherwise one step on, below step 4 only |
| Onboarding.Back | src/components/Onboarding.tsx:403-404 | disabled at step 1 and while loading; otherwise one step back |
| Onboarding.PickTarget | src/components/Onboarding.tsx:304-307 | choosing a suggested role clears the typed role |
| Onboarding.TypeTarget | src/components/Onboarding.tsx:331-334 | typing a role clears the suggested one |
| Onboarding.SliderValue | src/components/Onboarding.tsx:359-364 | the slider reports hours in 1..40 |
| Onboarding.StepKeepsValid | src/components/Onboarding.tsx:62-95 | every input keeps the step in 1..4, the skills distinct and non-empty, at most one target field filled and the hours in 1..40 |
| Onboarding.Valid | src/components/Onboarding.tsx:62-95 | the form invariant: step in 1..4, skills distinct and non-empty, at most one target field filled, hours in 1..40 |
| Onboarding.Step | src/components/Onboarding.tsx:62-95 | one user input on the form; `Onboarding.StepKeepsValid` shows it keeps the invariant |
| Onboarding.Run | src/components/Onboarding.tsx:62-95 | a sequence of inputs; `Onboarding.RunKeepsValid` shows it keeps the invariant |
| Onboarding.RunKeepsValid | src/components/Onboarding.tsx:62-95 | any sequence of inputs keeps the form valid |
| Onboarding.InitialValid | src/components/Onboarding.tsx:62-72 | the initial form is valid |
| Onboarding.FinalTarget | src/components/Onboarding.tsx:98 | the typed role when there is one, else the chosen role |
| Onboarding.GenerationRequest | src/components/Onboarding.tsx:129-135 | the request carries the form's skills and the final target |
| Onboarding.WriteProfile | src/components/Onboarding.tsx:109-118 | the profile is marked onboarded with the final target and the given skills |
| Onboarding.CompleteAsWritten | src/components/Onboarding.tsx:97-150 | an empty target is refused; a failed profile write changes nothing; otherwise the profile is written before the generation call, with `existing_skills` overwritten, and `onComplete` runs exactly when generation succeeds |
| Onboarding.OnboardingErasesAssessment | src/components/Onboarding.tsx:108-118 | as written, finishing onboarding after the assessment sends the user back to the assessment |
| Onboarding.AssessmentTags | src/components/Onboarding.tsx:108-118 | exactly the `General_Q` entries of a skill list |
| Onboarding.Complete | src/components/Onboarding.tsx:97-150 | corrected completion: the same refusals, request and `onComplete`, keeping the assessment tags |
| Onboarding.CompleteReachesDashboard | src/components/Onboarding.tsx:108-118 | corrected, finishing onboarding after the assessment reaches the full dashboard and keeps every form skill |
| Onboarding.PromptListsFormSkills | src/components/Onboarding.tsx:129-135 | the prompt sent for a completed form lists every skill of the form |
| Shared.InitialExpanded | src/pages/SharedRoadmap.tsx:92-94 | only the first phase is open, and nothing without phases |
| Shared.Toggle | src/pages/SharedRoadmap.tsx:102-108 | the phase's membership flips and every other name's stays |
| Shared.ToggleTwice | src/pages/SharedRoadmap.tsx:102-108 | toggling keeps the list duplicate-free, and toggling twice restores the membership |
| Shared.ToggleInitial | src/pages/SharedRoadmap.tsx:92-108 | right after loading, clicking the open first phase leaves nothing open, and clicking another opens it beside the first |
| Shared.DisplayName | src/pages/SharedRoadmap.tsx:169-179 | current-format names are kept; otherwise the first matching group decides: Beginner or Foundation to "Frontend Development", then Intermediate or Core to "Backend Development", then Advanced or Market to "Database"; a name with none of these words is kept |
| Shared.NewFormat | src/pages/SharedRoadmap.tsx:170-173 | the names kept as they are: "Frontend (Basics)", "Backend", and any name containing "Infrastructure" |
| Shared.TopicColor | src/pages/SharedRoadmap.tsx:49-56 | the first matching keyword group of the lower-cased name decides (beginner, then intermediate, then advanced); a name without keywords takes the palette colour of its position modulo 4 |
| Shared.ColorByPosition | src/pages/SharedRoadmap.tsx:49-56 | a name with a keyword has one colour at every position; one without cycles with period 4 |
| Shared.RenamedHaveKeywords | src/pages/SharedRoadmap.tsx:176-178 | the three layer names carry keywords, the frontend ones beginner keywords |
| Shared.InfrastructureKeyword | src/pages/SharedRoadmap.tsx:173 | a current-format Infrastructure name carries a keyword |
| Shared.DisplayNameColors | src/pages/SharedRoadmap.tsx:169-181 | every renamed or Infrastructure phase gets a colour fixed regardless of position and never the fallback class; frontend names get the beginner colour |
| Notes.Stored | src/components/SkillNotes.tsx:43 | a missing note reads as empty |
| Notes.Fetch | src/components/SkillNotes.tsx:30-51 | a loaded note fills both texts, leaving nothing to save; a failed load changes nothing |
| Notes.Type | src/components/SkillNotes.tsx:117 | there is something to save exactly when the typed text differs from the saved one |
| Notes.Save | src/components/SkillNotes.tsx:53-80 | without changes, or on failure, nothing changes; otherwise the content is upserted under its key and becomes the saved text |
| Notes.SaveThenFetch | src/components/SkillNotes.tsx:58-82 | after a save the Save button is gone, the note reads back as typed, and every other key is untouched |
| Notes.SaveIdempotent | src/components/SkillNotes.tsx:53-72 | pressing Save again right after a successful save does nothing |
| Notes.LoadedNoteIsClean | src/components/SkillNotes.tsx:43-54 | right after a load, Save writes nothing |
| Notes.StaleTextAfterFailedLoad | src/components/SkillNotes.tsx:26-51 | a failed load keeps the previous skill's text, which a save then writes under the new key |
| Seqs.FirstIndex | src/pages/SkillDetail.tsx:180 | the first position holding the value; none exactly when absent |
| Seqs.Without | src/pages/SharedRoadmap.tsx:105 | every occurrence is dropped and every other element kept |
| Seqs.Covers | src/pages/ModuleDetail.tsx:387-388 | a duplicate-free list inside another is no longer, and exactly as long when it covers it |
| Text.ContainsLower | src/pages/SharedRoadmap.tsx:50-53 | lower-casing keeps every occurrence of a word |

## Left out

- **Rendering.** React rendering, animations, toasts, icons, CSS classes and `getDifficultyColor` are left out. They show state and compute nothing the model needs.
- **I/O.** Supabase queries, auth, routing and the `fetch` calls are left out. Their results are inputs and the tables are values.
  - The order the 30-day query sorts in does not matter, since the streak sorts again.
- **Foreign functions.** `JSON.parse`, `new URL`, `encodeURIComponent` and `toISOString` are inputs or left out. A search link carries its query text, not its encoded URL.
- **Text.**
  - Lower-casing and the `\s` class cover ASCII only.
  - The prompt's system text and closing sentence are static text and left out.
- **Time.** The time of day, time zones and daylight saving are left out; a date is a day number.
- **Async behaviour.** Races between unawaited writes, double clicks and stale closures are left out. So are the `loading` and `saving` flags, apart from the Back button's.
- **Static content.** The topic texts and quiz questions of the three modules, the career list and the suggested skills and roles are left out.
  - Only the topic ids enter, and a topic's correct options are an input.
- **Edge-function headers.** CORS headers are left out. The request body's fields are taken as typed.
- **Other pages.** The other pages and components hold no logic beyond what is modelled, or only presentation.
- Generation.Handle: reading the gateway's reply as JSON is taken to succeed. A failure there is a 500 like the other caught errors.
- Generation.Handle: a body without `existingSkills` is modelled as the runtime's own error, with status 500.
- Dashboard.SelectCareer: the loading spinner is not modelled. A failed update leaves `loading` set, and the page keeps showing the spinner.
- Percent.RoundedPercent: rounds the exact rational 100p/w half up. The source's double computation can fall just below a half and round down: 23 of 40 gives 57.49999999999999, so the source shows 57 where the model gives 58.
- Activity.CompletionRate: inherits the exact half-up rounding of `Percent.RoundedPercent`, which can be one above the source's double result at halves.
- Activity.WeeklyGoalProgress: inherits the exact half-up rounding; 87 minutes of a 600-minute goal gives 14 in the source and 15 in the model.
- Curriculum.ProgressPercentage: inherits the exact half-up rounding of `Percent.RoundedPercent`.
- Quiz.PassThreshold: equals the floating-point `Math.ceil(n * 0.67)` only for quizzes of fewer than 100 questions.
- Activity.Weekly: the window is the last seven calendar days, today included. The source compares each row's midnight with the moment seven days ago.
- Activity.FormatTime: the mixed case "Hh Mm" is stated only through the round trip `Activity.ParseFormatTime`.
- Resources.ResourceLabel: `replace('www.', '')` drops the first `www.` anywhere in the host. The contract covers only a leading one and a host without one.
- Shared.DisplayNameColors: the backend and database layer names are shown to get a fixed, non-fallback colour. Their exact class is not stated.
- Onboarding.SliderValue: relies on the browser keeping a range input within `min` and `max`. `parseInt` of such a value is never NaN.

## Findings

| source | as written | input that shows it | evidently intended | confidence | as-written member | corrected member |
|---|---|---|---|---|---|---|
| src/components/ProgressDashboard.tsx:136-143 | after counting yesterday's row at position 0, the loop expects position 1 to be dated yesterday too (`today - i`), so a run ending yesterday stops at once (`Activity.YesterdayRunAsWritten`) | rows for yesterday and the day before, both with minutes, and none today: streak 1 | count back from yesterday: streak 2 (`Activity.YesterdayRun`) | high, not executed | Activity.StreakAsWritten | Activity.Streak |
| src/pages/ModuleDetail.tsx:353-363 | on changing module the saved list is loaded only if one exists, so a module with nothing saved keeps the previous module's completed list (`Curriculum.StaleProgressAsWritten`) | finish all five frontend topics, then go on to backend: 5 of 4 completed, progress 125 percent (the page is not routed in `src/App.tsx:26-37`, so this shows once it is) | a module without a saved list starts empty; progress stays in 0..100 (`Curriculum.LoadKeepsProgressInRange`) | high, not executed | Curriculum.LoadAsWritten | Curriculum.Load |
| src/components/Onboarding.tsx:108-118 | the onboarding write replaces `existing_skills` with the form's skills, erasing the `General_Q` tags the dashboard uses to tell that the assessment is done (`Onboarding.OnboardingErasesAssessment`) | complete the assessment, choose a career, finish onboarding with the skill "Python": the dashboard shows the assessment again | keep the assessment tags next to the form's skills, so the full dashboard follows (`Onboarding.CompleteReachesDashboard`) | medium, not executed | Onboarding.CompleteAsWritten | Onboarding.Complete |
