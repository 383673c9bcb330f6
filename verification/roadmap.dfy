/** The generated roadmap document as the skill page reads it, the per-skill
    progress rows, and the unlock chain of the skill page: a skill is locked
    exactly when the skill before it, in phase-then-skill order, is not
    completed (src/pages/SkillDetail.tsx). */
module Roadmap {
  import opened Wrappers
  import opened Seqs

  datatype QuizQuestion = QuizQuestion(question: string, options: seq<string>, correctAnswer: int)

  /** A skill of a phase. Absent `resources` and `quiz` arrays read as empty,
      as `skill.quiz || []` does. */
  datatype Skill = Skill(
    name: string,
    description: string,
    estimatedTime: Option<string>,
    days: Option<string>,
    resources: seq<string>,
    quiz: seq<QuizQuestion>)

  datatype Phase = Phase(name: string, skills: seq<Skill>)

  datatype RoadmapDoc = RoadmapDoc(phases: seq<Phase>)

  /** One `skill_progress` row, identified by `id` and matched by the
      (skill name, phase name) pair. */
  datatype ProgressRow = ProgressRow(id: nat, skillName: string, phase: string, completed: bool)

  /** A skill's identity inside one roadmap: its phase name and its own name. */
  datatype Key = Key(phase: string, skill: string)

  // ---------------------------------------------------------------------
  // Progress rows
  // ---------------------------------------------------------------------

  predicate Matches(row: ProgressRow, skillName: string, phaseName: string) {
    row.skillName == skillName && row.phase == phaseName
  }

  /** `progress.find(...)`: the index of the first row for the pair. */
  function FindRow(progress: seq<ProgressRow>, skillName: string, phaseName: string): (r: Option<nat>)
    ensures r.None? <==> forall i :: 0 <= i < |progress| ==> !Matches(progress[i], skillName, phaseName)
    ensures r.Some? ==> r.value < |progress| && Matches(progress[r.value], skillName, phaseName)
    ensures r.Some? ==> forall i :: 0 <= i < r.value ==> !Matches(progress[i], skillName, phaseName)
  {
    if |progress| == 0 then None
    else if Matches(progress[0], skillName, phaseName) then Some(0)
    else match FindRow(progress[1..], skillName, phaseName)
      case None => None
      case Some(i) => Some(i + 1)
  }

  /** `isSkillCompleted`: the first matching row's flag, false without a row. */
  function IsSkillCompleted(progress: seq<ProgressRow>, skillName: string, phaseName: string): (r: bool)
    ensures (forall i :: 0 <= i < |progress| ==> !Matches(progress[i], skillName, phaseName)) ==> !r
    ensures r ==> exists i :: 0 <= i < |progress| && Matches(progress[i], skillName, phaseName) && progress[i].completed
    // the first matching row decides, whatever later rows for the pair say
    ensures forall i :: (0 <= i < |progress| && Matches(progress[i], skillName, phaseName)
                         && (forall j :: 0 <= j < i ==> !Matches(progress[j], skillName, phaseName)))
                         ==> (r <==> progress[i].completed)
  {
    match FindRow(progress, skillName, phaseName)
    case None => false
    case Some(i) => progress[i].completed
  }

  predicate UniqueIds(progress: seq<ProgressRow>) {
    forall i, j :: 0 <= i < j < |progress| ==> progress[i].id != progress[j].id
  }

  /** The local state after `markSkillComplete`: nothing changes without a
      row or when the database update fails (`updateOk` false); otherwise
      every row carrying the found row's id becomes completed. */
  function MarkSkillComplete(progress: seq<ProgressRow>, skillName: string, phaseName: string, updateOk: bool): (r: seq<ProgressRow>)
    ensures |r| == |progress|
    ensures FindRow(progress, skillName, phaseName).None? || !updateOk ==> r == progress
    ensures forall i :: 0 <= i < |r| ==>
      r[i].id == progress[i].id && r[i].skillName == progress[i].skillName && r[i].phase == progress[i].phase
    ensures forall i :: 0 <= i < |r| ==> progress[i].completed ==> r[i].completed
    ensures UniqueIds(progress) ==> forall i :: 0 <= i < |r| && r[i] != progress[i] ==>
      FindRow(progress, skillName, phaseName) == Some(i)
  {
    match FindRow(progress, skillName, phaseName)
    case None => progress
    case Some(k) =>
      if !updateOk then progress else
      seq(|progress|, i requires 0 <= i < |progress| =>
        if progress[i].id == progress[k].id then progress[i].(completed := true) else progress[i])
  }

  /** `FindRow` looks only at the names, which marking leaves alone. */
  lemma FindRowAfterMark(progress: seq<ProgressRow>, s: string, p: string, ok: bool, s': string, p': string)
    ensures FindRow(MarkSkillComplete(progress, s, p, ok), s', p') == FindRow(progress, s', p')
  {
    var r := MarkSkillComplete(progress, s, p, ok);
    assert forall i :: 0 <= i < |r| ==> (Matches(r[i], s', p') <==> Matches(progress[i], s', p'));
  }

  /** After a successful update the marked pair reads as completed exactly
      when it has a row; after a failed one its status is what it was. */
  lemma MarkCompletes(progress: seq<ProgressRow>, skillName: string, phaseName: string, updateOk: bool)
    ensures var after := MarkSkillComplete(progress, skillName, phaseName, updateOk);
      updateOk ==> (IsSkillCompleted(after, skillName, phaseName) <==> FindRow(progress, skillName, phaseName).Some?)
    ensures var after := MarkSkillComplete(progress, skillName, phaseName, updateOk);
      !updateOk ==> IsSkillCompleted(after, skillName, phaseName) == IsSkillCompleted(progress, skillName, phaseName)
  {
    FindRowAfterMark(progress, skillName, phaseName, updateOk, skillName, phaseName);
  }

  /** With unique row ids, marking one pair changes no other pair's status. */
  lemma MarkKeepsOthers(progress: seq<ProgressRow>, s: string, p: string, ok: bool, s': string, p': string)
    requires UniqueIds(progress)
    requires s != s' || p != p'
    ensures IsSkillCompleted(MarkSkillComplete(progress, s, p, ok), s', p') == IsSkillCompleted(progress, s', p')
  {
    FindRowAfterMark(progress, s, p, ok, s', p');
  }

  // ---------------------------------------------------------------------
  // Locating a skill and its predecessor
  // ---------------------------------------------------------------------

  function PhaseNames(doc: RoadmapDoc): (r: seq<string>)
    ensures |r| == |doc.phases| && forall i :: 0 <= i < |r| ==> r[i] == doc.phases[i].name
  {
    seq(|doc.phases|, i requires 0 <= i < |doc.phases| => doc.phases[i].name)
  }

  function SkillNames(phase: Phase): (r: seq<string>)
    ensures |r| == |phase.skills| && forall i :: 0 <= i < |r| ==> r[i] == phase.skills[i].name
  {
    seq(|phase.skills|, i requires 0 <= i < |phase.skills| => phase.skills[i].name)
  }

  datatype Position = Position(phaseIndex: nat, skillIndex: nat)

  /** The phase and skill indices the lock logic computes from the names:
      the first phase of that name, and the first skill of that name in it. */
  function Locate(doc: RoadmapDoc, phaseName: string, skillName: string): (r: Option<Position>)
    ensures r.Some? ==> (
      && r.value.phaseIndex < |doc.phases|
      && r.value.skillIndex < |doc.phases[r.value.phaseIndex].skills|
      && doc.phases[r.value.phaseIndex].name == phaseName
      && doc.phases[r.value.phaseIndex].skills[r.value.skillIndex].name == skillName)
    ensures r.Some? ==> forall j :: 0 <= j < r.value.phaseIndex ==> doc.phases[j].name != phaseName
    ensures r.Some? ==> forall j :: 0 <= j < r.value.skillIndex ==>
      doc.phases[r.value.phaseIndex].skills[j].name != skillName
    ensures phaseName !in PhaseNames(doc) ==> r.None?
    ensures r.None? && phaseName in PhaseNames(doc) ==>
      skillName !in SkillNames(doc.phases[FirstIndex(PhaseNames(doc), phaseName).value])
  {
    match FirstIndex(PhaseNames(doc), phaseName)
    case None => None
    case Some(pi) =>
      match FirstIndex(SkillNames(doc.phases[pi]), skillName)
      case None => None
      case Some(si) => Some(Position(pi, si))
  }

  /** What comes before a skill: nothing (the very first skill), a named
      skill, or a missing one (the previous phase has no skills, so reading
      its last skill's name throws). */
  datatype Before = First | After(key: Key) | Missing

  function Predecessor(doc: RoadmapDoc, pos: Position): Before
    requires pos.phaseIndex < |doc.phases| && pos.skillIndex < |doc.phases[pos.phaseIndex].skills|
  {
    var pi := pos.phaseIndex;
    var si := pos.skillIndex;
    if pi == 0 && si == 0 then First
    else if si == 0 then
      var prev := doc.phases[pi - 1];
      if |prev.skills| == 0 then Missing
      else After(Key(prev.name, prev.skills[|prev.skills| - 1].name))
    else After(Key(doc.phases[pi].name, doc.phases[pi].skills[si - 1].name))
  }

  /** `checkIsLocked` for the skill page showing (`phaseName`, `skillName`).
      `None` is the page throwing: a name the document does not hold (index
      -1), or a previous phase without skills. */
  function CheckIsLocked(doc: RoadmapDoc, progress: seq<ProgressRow>, phaseName: string, skillName: string): (r: Option<bool>)
    ensures |doc.phases| > 0 && |doc.phases[0].skills| > 0
      && phaseName == doc.phases[0].name && skillName == doc.phases[0].skills[0].name
      ==> r == Some(false)
    ensures Locate(doc, phaseName, skillName).None? ==> r.None?
  {
    match Locate(doc, phaseName, skillName)
    case None => None
    case Some(pos) =>
      match Predecessor(doc, pos)
      case First => Some(false)
      case Missing => None
      case After(k) => Some(!IsSkillCompleted(progress, k.skill, k.phase))
  }

  /** The text asking to complete `skill` first. */
  function UnlockHint(skill: string): string {
    "Complete \"" + skill + "\" first to unlock this skill."
  }

  /** `getLockedMessage`: names the skill to complete first, or is empty for
      the very first skill and for a skill name its phase does not hold
      (index -1 takes neither branch). `None` is the page throwing: a
      phase name the document lacks, or an empty previous phase. */
  function LockedMessage(doc: RoadmapDoc, phaseName: string, skillName: string): (r: Option<string>)
    ensures phaseName !in PhaseNames(doc) ==> r.None?
    ensures phaseName in PhaseNames(doc) && Locate(doc, phaseName, skillName).None? ==> r == Some("")
    ensures Locate(doc, phaseName, skillName).Some? ==>
      match Predecessor(doc, Locate(doc, phaseName, skillName).value)
      case First => r == Some("")
      case Missing => r.None?
      case After(k) => r == Some(UnlockHint(k.skill))
  {
    match FirstIndex(PhaseNames(doc), phaseName)
    case None => None
    case Some(pi) =>
      match FirstIndex(SkillNames(doc.phases[pi]), skillName)
      case None => Some("")
      case Some(si) =>
        match Predecessor(doc, Position(pi, si))
        case First => Some("")
        case Missing => None
        case After(k) => Some(UnlockHint(k.skill))
  }

  /** Whenever the page is locked, the message names the very skill whose
      missing completion locks it. */
  lemma LockedMessageNamesBlocker(doc: RoadmapDoc, progress: seq<ProgressRow>, phaseName: string, skillName: string)
    ensures CheckIsLocked(doc, progress, phaseName, skillName) == Some(true) ==>
      && Locate(doc, phaseName, skillName).Some?
      && Predecessor(doc, Locate(doc, phaseName, skillName).value).After?
      && var k := Predecessor(doc, Locate(doc, phaseName, skillName).value).key;
         LockedMessage(doc, phaseName, skillName) == Some(UnlockHint(k.skill))
         && !IsSkillCompleted(progress, k.skill, k.phase)
  {
  }

  /** Along the chain of a well-keyed roadmap, every skill but the first is
      announced with the name of the skill right before it. */
  lemma LockedMessageInChain(doc: RoadmapDoc, pi: nat, si: nat)
    requires WellKeyed(doc) && NoEmptyPhase(doc)
    requires pi < |doc.phases| && si < |doc.phases[pi].skills|
    ensures var k := Offset(doc.phases, pi) + si;
      k < |Flatten(doc)| &&
      LockedMessage(doc, doc.phases[pi].name, doc.phases[pi].skills[si].name)
        == if k == 0 then Some("") else Some(UnlockHint(Flatten(doc)[k - 1].skill))
  {
    LocateWellKeyed(doc, pi, si);
    PredecessorIsPreviousInChain(doc, pi, si);
  }

  /** `timeDisplay`: the `days` text, else the `estimatedTime` text, else
      "N/A"; empty strings count as absent. */
  function TimeDisplay(skill: Skill): (r: string)
    ensures r != ""
    // "N/A" is shown exactly when neither text is usable, or one shown says "N/A"
    ensures r == "N/A" <==>
      (skill.days == Some("N/A")
       || ((skill.days.None? || skill.days.value == "")
           && (skill.estimatedTime.None? || skill.estimatedTime.value in {"", "N/A"})))
    ensures skill.days.Some? && skill.days.value != "" ==> r == skill.days.value
    ensures (skill.days.None? || skill.days.value == "") && skill.estimatedTime.Some? && skill.estimatedTime.value != ""
      ==> r == skill.estimatedTime.value
  {
    if skill.days.Some? && skill.days.value != "" then skill.days.value
    else if skill.estimatedTime.Some? && skill.estimatedTime.value != "" then skill.estimatedTime.value
    else "N/A"
  }

  // ---------------------------------------------------------------------
  // The flattened chain
  // ---------------------------------------------------------------------

  function PhaseKeys(phase: Phase): (r: seq<Key>)
    ensures |r| == |phase.skills|
    ensures forall j :: 0 <= j < |r| ==> r[j] == Key(phase.name, phase.skills[j].name)
  {
    seq(|phase.skills|, j requires 0 <= j < |phase.skills| => Key(phase.name, phase.skills[j].name))
  }

  /** Every skill of the document, in phase order then skill order. */
  function FlattenPhases(phases: seq<Phase>): seq<Key> {
    if |phases| == 0 then [] else FlattenPhases(phases[..|phases| - 1]) + PhaseKeys(phases[|phases| - 1])
  }

  function Flatten(doc: RoadmapDoc): seq<Key> {
    FlattenPhases(doc.phases)
  }

  /** Position in the flattened chain of the first skill of phase `pi`. */
  function Offset(phases: seq<Phase>, pi: nat): nat
    requires pi <= |phases|
  {
    |FlattenPhases(phases[..pi])|
  }

  /** Names are unique where the source uses them as keys: phase names in
      the document, skill names inside each phase. */
  predicate WellKeyed(doc: RoadmapDoc) {
    && (forall i, j :: 0 <= i < j < |doc.phases| ==> doc.phases[i].name != doc.phases[j].name)
    && (forall p, i, j :: 0 <= p < |doc.phases| && 0 <= i < j < |doc.phases[p].skills| ==>
          doc.phases[p].skills[i].name != doc.phases[p].skills[j].name)
  }

  predicate NoEmptyPhase(doc: RoadmapDoc) {
    forall p :: 0 <= p < |doc.phases| ==> |doc.phases[p].skills| > 0
  }

  lemma {:induction false} FlattenAt(phases: seq<Phase>, pi: nat, si: nat)
    requires pi < |phases| && si < |phases[pi].skills|
    ensures Offset(phases, pi) + si < |FlattenPhases(phases)|
    ensures FlattenPhases(phases)[Offset(phases, pi) + si] == Key(phases[pi].name, phases[pi].skills[si].name)
    decreases |phases|
  {
    var n := |phases|;
    var init := phases[..n - 1];
    assert FlattenPhases(phases) == FlattenPhases(init) + PhaseKeys(phases[n - 1]);
    if pi < n - 1 {
      FlattenAt(init, pi, si);
      assert init[..pi] == phases[..pi];
    } else {
      assert phases[..pi] == init;
    }
  }

  lemma OffsetStep(phases: seq<Phase>, pi: nat)
    requires 0 < pi <= |phases|
    ensures Offset(phases, pi) == Offset(phases, pi - 1) + |phases[pi - 1].skills|
  {
    assert phases[..pi][..pi - 1] == phases[..pi - 1];
    assert FlattenPhases(phases[..pi]) == FlattenPhases(phases[..pi - 1]) + PhaseKeys(phases[pi - 1]);
  }

  /** With unique names, the skill at (`pi`, `si`) is located at exactly
      those indices. */
  lemma LocateWellKeyed(doc: RoadmapDoc, pi: nat, si: nat)
    requires WellKeyed(doc)
    requires pi < |doc.phases| && si < |doc.phases[pi].skills|
    ensures Locate(doc, doc.phases[pi].name, doc.phases[pi].skills[si].name) == Some(Position(pi, si))
  {
    FirstIndexOfDistinct(PhaseNames(doc), pi);
    FirstIndexOfDistinct(SkillNames(doc.phases[pi]), si);
  }

  /** The predecessor the lock logic consults is the previous entry of the
      flattened chain, across phase boundaries. */
  lemma PredecessorIsPreviousInChain(doc: RoadmapDoc, pi: nat, si: nat)
    requires NoEmptyPhase(doc)
    requires pi < |doc.phases| && si < |doc.phases[pi].skills|
    ensures var k := Offset(doc.phases, pi) + si;
      k < |Flatten(doc)| &&
      (k == 0 <==> Predecessor(doc, Position(pi, si)).First?) &&
      (k > 0 ==> Predecessor(doc, Position(pi, si)) == After(Flatten(doc)[k - 1]))
  {
    var ps := doc.phases;
    FlattenAt(ps, pi, si);
    if si > 0 {
      FlattenAt(ps, pi, si - 1);
    } else if pi > 0 {
      OffsetStep(ps, pi);
      FlattenAt(ps, pi - 1, |ps[pi - 1].skills| - 1);
    } else {
      assert ps[..0] == [];
    }
  }

  /** The unlock chain: the skill at flattened position k is locked exactly
      when k > 0 and the skill at position k - 1 is not completed; position
      0 is never locked. The chain crosses phase boundaries. */
  lemma LockChain(doc: RoadmapDoc, progress: seq<ProgressRow>, pi: nat, si: nat)
    requires WellKeyed(doc) && NoEmptyPhase(doc)
    requires pi < |doc.phases| && si < |doc.phases[pi].skills|
    ensures var k := Offset(doc.phases, pi) + si;
      var flat := Flatten(doc);
      k < |flat| && flat[k] == Key(doc.phases[pi].name, doc.phases[pi].skills[si].name) &&
      CheckIsLocked(doc, progress, doc.phases[pi].name, doc.phases[pi].skills[si].name)
        == Some(k > 0 && !IsSkillCompleted(progress, flat[k - 1].skill, flat[k - 1].phase))
  {
    FlattenAt(doc.phases, pi, si);
    LocateWellKeyed(doc, pi, si);
    PredecessorIsPreviousInChain(doc, pi, si);
  }

  /** Completing one skill can change the lock status only of the skill right
      after it in the chain. */
  lemma MarkUnlocksOnlySuccessor(doc: RoadmapDoc, progress: seq<ProgressRow>, marked: Key, updateOk: bool, pi: nat, si: nat)
    requires WellKeyed(doc) && NoEmptyPhase(doc) && UniqueIds(progress)
    requires pi < |doc.phases| && si < |doc.phases[pi].skills|
    ensures var k := Offset(doc.phases, pi) + si;
      var name := doc.phases[pi].name;
      var skill := doc.phases[pi].skills[si].name;
      k < |Flatten(doc)| &&
      (k == 0 || Flatten(doc)[k - 1] != marked ==>
        CheckIsLocked(doc, MarkSkillComplete(progress, marked.skill, marked.phase, updateOk), name, skill)
          == CheckIsLocked(doc, progress, name, skill))
  {
    var k := Offset(doc.phases, pi) + si;
    var after := MarkSkillComplete(progress, marked.skill, marked.phase, updateOk);
    LockChain(doc, progress, pi, si);
    LockChain(doc, after, pi, si);
    if k > 0 && Flatten(doc)[k - 1] != marked {
      var prev := Flatten(doc)[k - 1];
      MarkKeepsOthers(progress, marked.skill, marked.phase, updateOk, prev.skill, prev.phase);
    }
  }
}
