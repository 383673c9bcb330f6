/** The public page of a shared roadmap (src/pages/SharedRoadmap.tsx): which
    phases are expanded, the display name of each phase (older roadmaps name
    their phases by level, newer ones by layer) and the colour class a
    phase's name picks. */
module Shared {
  import opened Wrappers
  import opened Text
  import opened Seqs
  import opened Roadmap

  // ---------------------------------------------------------------------
  // Expanded phases
  // ---------------------------------------------------------------------

  /** After loading, only the first phase is open; with no phases (or none
      loaded) nothing is. */
  function InitialExpanded(phases: Option<seq<Phase>>): (r: seq<string>)
    ensures |r| <= 1
    ensures r == [] <==> phases.None? || |phases.value| == 0
    ensures r != [] ==> r[0] == phases.value[0].name
  {
    if phases.Some? && |phases.value| > 0 then [phases.value[0].name] else []
  }

  /** `togglePhase`: an open phase is closed, a closed one is opened at the
      end. */
  function Toggle(expanded: seq<string>, name: string): (r: seq<string>)
    ensures name in expanded ==> name !in r
    ensures name !in expanded ==> name in r
    ensures forall n :: n != name ==> (n in r <==> n in expanded)
  {
    if name in expanded then Without(expanded, name) else expanded + [name]
  }

  /** Toggling keeps the list duplicate-free, and toggling twice restores
      which phases are open (exactly the list when the phase was closed). */
  lemma ToggleTwice(expanded: seq<string>, name: string)
    requires Distinct(expanded)
    ensures Distinct(Toggle(expanded, name))
    ensures forall n :: n in Toggle(Toggle(expanded, name), name) <==> n in expanded
    ensures name !in expanded ==> Toggle(Toggle(expanded, name), name) == expanded
  {
    if name in expanded {
      WithoutKeepsDistinct(expanded, name);
    } else {
      AppendKeepsDistinct(expanded, name);
      WithoutLast(expanded, name);
    }
  }

  /** Right after loading, clicking the open first phase closes it and
      leaves nothing open; clicking any other phase opens it next to the
      first. */
  lemma ToggleInitial(phases: seq<Phase>, name: string)
    requires |phases| > 0
    ensures name == phases[0].name ==> Toggle(InitialExpanded(Some(phases)), name) == []
    ensures name != phases[0].name ==> Toggle(InitialExpanded(Some(phases)), name) == [phases[0].name, name]
  {
    var first := [phases[0].name];
    if name == phases[0].name {
      assert Without(first, name) == Without(first[1..], name);
      assert first[1..] == [];
    }
  }

  // ---------------------------------------------------------------------
  // Display names and colours
  // ---------------------------------------------------------------------

  /** Phase names of the current format are shown as they are. */
  predicate NewFormat(name: string) {
    name == "Frontend (Basics)" || name == "Backend" || Contains(name, "Infrastructure")
  }

  /** The name a phase is shown under: level names of older roadmaps become
      layer names, matched case-sensitively in this order. */
  function DisplayName(name: string): (r: string)
    ensures NewFormat(name) ==> r == name
    ensures r == name || r in {"Frontend Development", "Backend Development", "Database"}
    ensures !NewFormat(name) && (Contains(name, "Beginner") || Contains(name, "Foundation"))
      ==> r == "Frontend Development"
    ensures && !NewFormat(name) && !Contains(name, "Beginner") && !Contains(name, "Foundation")
            && (Contains(name, "Intermediate") || Contains(name, "Core"))
      ==> r == "Backend Development"
    ensures && !NewFormat(name) && !Contains(name, "Beginner") && !Contains(name, "Foundation")
            && !Contains(name, "Intermediate") && !Contains(name, "Core")
            && (Contains(name, "Advanced") || Contains(name, "Market"))
      ==> r == "Database"
    ensures && !Contains(name, "Beginner") && !Contains(name, "Foundation")
            && !Contains(name, "Intermediate") && !Contains(name, "Core")
            && !Contains(name, "Advanced") && !Contains(name, "Market")
      ==> r == name
  {
    if NewFormat(name) then name
    else if Contains(name, "Beginner") || Contains(name, "Foundation") then "Frontend Development"
    else if Contains(name, "Intermediate") || Contains(name, "Core") then "Backend Development"
    else if Contains(name, "Advanced") || Contains(name, "Market") then "Database"
    else name
  }

  datatype TopicClass = PhaseBeginner | PhaseIntermediate | PhaseAdvanced | PhaseMarket

  /** The fallback colours, cycled by the phase's position. */
  const Palette: seq<TopicClass> := [PhaseBeginner, PhaseIntermediate, PhaseAdvanced, PhaseMarket]

  predicate BeginnerWord(lower: string) {
    Contains(lower, "frontend") || Contains(lower, "foundation") || Contains(lower, "basic") || Contains(lower, "beginner")
  }

  predicate IntermediateWord(lower: string) {
    Contains(lower, "backend") || Contains(lower, "core") || Contains(lower, "intermediate")
  }

  predicate AdvancedWord(lower: string) {
    Contains(lower, "database") || Contains(lower, "advanced") || Contains(lower, "mastery") || Contains(lower, "infrastructure")
  }

  predicate HasKeyword(name: string) {
    var lower := Lower(name);
    BeginnerWord(lower) || IntermediateWord(lower) || AdvancedWord(lower)
  }

  /** `getTopicColor`: the keyword groups are tried on the lower-cased name
      in order; a name with none takes the palette colour of its position. */
  function TopicColor(name: string, index: nat): (r: TopicClass)
    ensures r in Palette
    ensures BeginnerWord(Lower(name)) ==> r == PhaseBeginner
    ensures !BeginnerWord(Lower(name)) && IntermediateWord(Lower(name)) ==> r == PhaseIntermediate
    ensures !BeginnerWord(Lower(name)) && !IntermediateWord(Lower(name)) && AdvancedWord(Lower(name))
      ==> r == PhaseAdvanced
    ensures !HasKeyword(name) ==> r == Palette[index % 4]
    ensures HasKeyword(name) ==> r != PhaseMarket
  {
    var lower := Lower(name);
    if BeginnerWord(lower) then PhaseBeginner
    else if IntermediateWord(lower) then PhaseIntermediate
    else if AdvancedWord(lower) then PhaseAdvanced
    else Palette[index % |Palette|]
  }

  /** A name with a keyword has one colour wherever the phase stands; a
      name without one cycles through the palette every four phases. */
  lemma ColorByPosition(name: string, i: nat, j: nat)
    ensures HasKeyword(name) ==> TopicColor(name, i) == TopicColor(name, j)
    ensures !HasKeyword(name) ==> TopicColor(name, i + 4) == TopicColor(name, i)
    ensures !HasKeyword(name) && i % 4 == 3 ==> TopicColor(name, i) == PhaseMarket
  {
    assert (i + 4) % 4 == i % 4;
  }

  /** The three names older phases are renamed to all carry a keyword, and
      both frontend names a beginner one. */
  lemma RenamedHaveKeywords()
    ensures BeginnerWord(Lower("Frontend Development"))
    ensures BeginnerWord(Lower("Frontend (Basics)"))
    ensures HasKeyword("Backend Development")
    ensures HasKeyword("Database")
  {
    assert Lower("Frontend Development")[..8] == "frontend";
    assert Lower("Frontend (Basics)")[..8] == "frontend";
    assert Lower("Backend Development")[..7] == "backend";
    assert Lower("Database")[..8] == "database";
  }

  /** A name containing "Infrastructure" carries the keyword
      "infrastructure". */
  lemma InfrastructureKeyword(name: string)
    requires Contains(name, "Infrastructure")
    ensures HasKeyword(name)
  {
    ContainsLower(name, "Infrastructure");
    assert Lower("Infrastructure") == "infrastructure";
  }

  /** Every phase shown under a renamed or current-format name gets a fixed
      colour of the three level colours, never the fallback one: "Frontend
      Development" and "Frontend (Basics)" the beginner colour, and current
      "Infrastructure" phases one that ignores their position. */
  lemma DisplayNameColors(name: string, i: nat, j: nat)
    ensures DisplayName(name) != name ==> TopicColor(DisplayName(name), i) == TopicColor(DisplayName(name), j)
    ensures DisplayName(name) != name ==> TopicColor(DisplayName(name), i) != PhaseMarket
    ensures (!NewFormat(name) && (Contains(name, "Beginner") || Contains(name, "Foundation")))
      ==> TopicColor(DisplayName(name), i) == PhaseBeginner
    ensures name == "Frontend (Basics)" ==> TopicColor(name, i) == PhaseBeginner
    ensures Contains(name, "Infrastructure") ==> TopicColor(DisplayName(name), i) == TopicColor(DisplayName(name), j)
    ensures Contains(name, "Infrastructure") ==> TopicColor(DisplayName(name), i) != PhaseMarket
  {
    RenamedHaveKeywords();
    var d := DisplayName(name);
    if Contains(name, "Infrastructure") {
      InfrastructureKeyword(name);
    }
    if d != name {
      assert d == "Frontend Development" || HasKeyword(d);
    }
    ColorByPosition(d, i, j);
  }
}
