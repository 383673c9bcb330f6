/** The `generate-roadmap` edge function
    (supabase/functions/generate-roadmap/index.ts): it builds a prompt from
    the user's profile, asks the AI gateway for a roadmap, checks the reply
    step by step, and stores the roadmap only when every check passes. The
    gateway's reply, `JSON.parse`, the API key and the outcome of the insert
    are inputs; the store of roadmaps is a list that only grows. */
module Generation {
  import opened Wrappers
  import opened Text

  /** A JSON value, as `JSON.parse` yields it. */
  datatype Json =
    | JNull
    | JBool(b: bool)
    | JNum(n: int)
    | JStr(s: string)
    | JArr(items: seq<Json>)
    | JObj(fields: map<string, Json>)

  /** The fields the handler destructures from the request body. */
  datatype Profile = Profile(
    userId: string,
    educationLevel: string,
    existingSkills: Option<seq<string>>,   // None when the field is absent
    targetSkill: string,
    weeklyHours: nat)

  datatype Request =
    | Preflight                      // an OPTIONS request
    | Post(body: Option<Profile>)    // None when the body is not JSON

  /** What the gateway answers: its HTTP status and, for a readable reply,
      `choices[0].message.content` if present. */
  datatype Upstream = Upstream(status: int, content: Option<string>)

  /** A row of `skill_roadmaps`. */
  datatype SavedRoadmap = SavedRoadmap(id: nat, userId: string, targetSkill: string, data: Json)

  datatype Body =
    | NoBody
    | ErrorMessage(message: string)   // {"error": message}
    | EngineError                     // {"error": <the runtime's own TypeError message>}
    | Success(roadmap: SavedRoadmap)  // {"success": true, "roadmap": ...}

  datatype Response = Response(status: int, body: Body)

  /** The response, the user prompt sent to the gateway (None when the
      gateway is not called), and the store afterwards. */
  datatype Outcome = Outcome(response: Response, prompt: Option<string>, store: seq<SavedRoadmap>)

  const RateLimited := "Rate limit exceeded. Please try again later."
  const CreditsExhausted := "AI credits exhausted. Please add more credits."

  predicate IsOk(status: int) {
    200 <= status <= 299
  }

  /** `existingSkills.length > 0 ? existingSkills.join(", ") : "None specified"` */
  function SkillsLine(skills: seq<string>): (r: string)
    ensures |skills| == 0 ==> r == "None specified"
    ensures |skills| == 1 ==> r == skills[0]
  {
    if |skills| > 0 then Join(skills, ", ") else "None specified"
  }

  const PromptOpening := "Create a personalized learning roadmap for:\n\nTarget Role/Skill: "

  /** The prompt up to the skills line. */
  function PromptIntro(p: Profile): string {
    PromptOpening + p.targetSkill + ("\nCurrent Education: " + p.educationLevel + "\nExisting Skills: ")
  }

  function PromptOutro(p: Profile): string {
    "\nWeekly Learning Time: " + NatToString(p.weeklyHours) + " hours\n"
  }

  /** The user prompt (the closing sentence is left out). */
  function UserPrompt(p: Profile, skills: seq<string>): (r: string)
    ensures StartsWith(r, PromptOpening + p.targetSkill)
  {
    var r := PromptIntro(p) + SkillsLine(skills) + PromptOutro(p);
    assert r[..|PromptOpening + p.targetSkill|] == PromptOpening + p.targetSkill;
    r
  }

  /** The prompt names the target and every existing skill. */
  lemma PromptMentions(p: Profile, skills: seq<string>)
    ensures Contains(UserPrompt(p, skills), p.targetSkill)
    ensures forall i :: 0 <= i < |skills| ==> Contains(UserPrompt(p, skills), skills[i])
  {
    var mid := "\nCurrent Education: " + p.educationLevel + "\nExisting Skills: ";
    var rest := mid + SkillsLine(skills) + PromptOutro(p);
    ContainsMiddle(PromptOpening, p.targetSkill, rest);
    assert PromptOpening + p.targetSkill + rest == UserPrompt(p, skills);
    if |skills| > 0 {
      JoinContainsEach(skills, ", ");
      forall i | 0 <= i < |skills|
        ensures Contains(UserPrompt(p, skills), skills[i])
      {
        ContainsWithin(PromptIntro(p), SkillsLine(skills), PromptOutro(p), skills[i]);
      }
    }
  }

  /** Text containing `q` keeps containing it inside a larger text. */
  lemma {:induction false} ContainsWithin(a: string, s: string, b: string, q: string)
    requires Contains(s, q)
    ensures Contains(a + s + b, q)
    decreases |a|
  {
    if |a| == 0 {
      ContainsExtend(s, q, b);
      assert a + s + b == s + b;
    } else {
      ContainsWithin(a[1..], s, b, q);
      assert (a + s + b)[1..] == a[1..] + s + b;
    }
  }

  /** `!roadmapData.phases || !Array.isArray(roadmapData.phases)` for a value
      whose `.phases` can be read; reading it from `null` throws instead. */
  predicate HasPhaseArray(data: Json) {
    data.JObj? && "phases" in data.fields && data.fields["phases"].JArr?
  }

  function Fail(store: seq<SavedRoadmap>, prompt: Option<string>, message: string): Outcome {
    Outcome(Response(500, ErrorMessage(message)), prompt, store)
  }

  /** The request handler. `apiKey` is the configured key (a missing or
      empty one is falsy), `reply` what the gateway answers, `parse` is
      `JSON.parse` (None when it throws), `saveOk` whether the insert
      succeeds and `newId` the id the store assigns. */
  function Handle(req: Request, apiKey: Option<string>, reply: Upstream, parse: string -> Option<Json>,
                  saveOk: bool, newId: nat, store: seq<SavedRoadmap>): (r: Outcome)
    // the store only ever grows, by at most the one new row
    ensures r.store == store || (|r.store| == |store| + 1 && r.store[..|store|] == store)
    ensures req.Preflight? ==> r == Outcome(Response(200, NoBody), None, store)
    ensures req.Post? && (req.body.None? || apiKey.None? || apiKey == Some("")) ==>
      r.prompt.None? && r.store == store && r.response.status == 500
    ensures req.Post? && req.body.Some? && apiKey.Some? && apiKey != Some("") ==>
      r.prompt == (if req.body.value.existingSkills.Some?
                   then Some(UserPrompt(req.body.value, req.body.value.existingSkills.value))
                   else None)
    ensures r.prompt.Some? && reply.status == 429 ==> r == Outcome(Response(429, ErrorMessage(RateLimited)), r.prompt, store)
    ensures r.prompt.Some? && reply.status == 402 ==> r == Outcome(Response(402, ErrorMessage(CreditsExhausted)), r.prompt, store)
    ensures r.prompt.Some? && !IsOk(reply.status) && reply.status != 429 && reply.status != 402 ==>
      r == Fail(store, r.prompt, "Failed to generate roadmap")
    ensures r.prompt.Some? && IsOk(reply.status) && (reply.content.None? || reply.content == Some("")) ==>
      r == Fail(store, r.prompt, "No content in AI response")
    ensures (r.prompt.Some? && IsOk(reply.status) && reply.content.Some? && reply.content.value != ""
             && parse(reply.content.value).None?) ==>
      r == Fail(store, r.prompt, "Invalid roadmap format")
    ensures r.store != store ==>
      && req.Post? && req.body.Some? && r.prompt.Some? && IsOk(reply.status)
      && reply.content.Some? && parse(reply.content.value).Some?
      && HasPhaseArray(parse(reply.content.value).value) && saveOk
      && r.store[|store|] == SavedRoadmap(newId, req.body.value.userId, req.body.value.targetSkill,
                                          parse(reply.content.value).value)
      && r.response == Response(200, Success(r.store[|store|]))
  {
    match req
    case Preflight => Outcome(Response(200, NoBody), None, store)
    case Post(body) =>
      if body.None? then Outcome(Response(500, EngineError), None, store)
      else if apiKey.None? || apiKey == Some("") then Fail(store, None, "LOVABLE_API_KEY is not configured")
      else
        var p := body.value;
        if p.existingSkills.None? then Outcome(Response(500, EngineError), None, store)
        else
          var prompt := Some(UserPrompt(p, p.existingSkills.value));
          if !IsOk(reply.status) then
            if reply.status == 429 then Outcome(Response(429, ErrorMessage(RateLimited)), prompt, store)
            else if reply.status == 402 then Outcome(Response(402, ErrorMessage(CreditsExhausted)), prompt, store)
            else Fail(store, prompt, "Failed to generate roadmap")
          else if reply.content.None? || reply.content == Some("") then
            Fail(store, prompt, "No content in AI response")
          else
            match parse(reply.content.value)
            case None => Fail(store, prompt, "Invalid roadmap format")
            case Some(data) =>
              if data.JNull? then Outcome(Response(500, EngineError), prompt, store)
              else if !HasPhaseArray(data) then Fail(store, prompt, "Invalid roadmap structure")
              else if !saveOk then Fail(store, prompt, "Failed to save roadmap")
              else
                var row := SavedRoadmap(newId, p.userId, p.targetSkill, data);
                Outcome(Response(200, Success(row)), prompt, store + [row])
  }

  /** The status of every outcome, read off the inputs alone: the reference
      decision table for the handler. */
  function ExpectedStatus(req: Request, apiKey: Option<string>, reply: Upstream,
                          parsed: Option<Json>, saveOk: bool): int
  {
    if req.Preflight? then 200
    else if req.body.None? || apiKey.None? || apiKey == Some("") || req.body.value.existingSkills.None? then 500
    else if reply.status == 429 || reply.status == 402 then reply.status
    else if !IsOk(reply.status) then 500
    else if reply.content.None? || reply.content == Some("") then 500
    else if parsed.Some? && HasPhaseArray(parsed.value) && saveOk then 200
    else 500
  }

  /** The handler answers with the status of the decision table, and it
      stores a roadmap exactly when it answers 200 to a POST. */
  lemma HandleMatchesTable(req: Request, apiKey: Option<string>, reply: Upstream, parse: string -> Option<Json>,
                           saveOk: bool, newId: nat, store: seq<SavedRoadmap>)
    ensures var parsed := if reply.content.Some? then parse(reply.content.value) else None;
      Handle(req, apiKey, reply, parse, saveOk, newId, store).response.status
        == ExpectedStatus(req, apiKey, reply, parsed, saveOk)
    ensures var r := Handle(req, apiKey, reply, parse, saveOk, newId, store);
      (|r.store| == |store| + 1) <==> (req.Post? && r.response.status == 200)
  {
  }

  /** Only 200, 402, 429 and 500 are ever answered, and the upstream
      statuses 402 and 429 are passed through only from the gateway. */
  lemma StatusesAnswered(req: Request, apiKey: Option<string>, reply: Upstream, parse: string -> Option<Json>,
                         saveOk: bool, newId: nat, store: seq<SavedRoadmap>)
    ensures var r := Handle(req, apiKey, reply, parse, saveOk, newId, store);
      r.response.status in {200, 402, 429, 500}
      && (r.response.status in {402, 429} ==> r.prompt.Some? && reply.status == r.response.status)
  {
  }
}
