/** `createNewGame` (client/src/lib/engine.ts): the fixed opening state of a
    new game. Its structure is built by `NewGameFrom` from a record of its
    free texts, so the invariant is proved for whatever the texts say. */
module NewGame {
  import opened Wrappers
  import opened Types
  import opened Stats
  import opened Extract
  import opened Turn

  /** The opening scene, four paragraphs separated by blank lines. */
  const OpeningText: string :=
    "Dawn breaks over <span class=\"text-yellow-400\">Azure Peak</span>, painting the mountain in shades of amber and gold. The path upward is carved from living stone, each step worn smooth by generations of hopeful cultivators."
    + "\n\n" +
    "You clutch the torn fragment of the manual you found in the mine collapse three days ago. The characters shimmer faintly when you focus, as if responding to something within you."
    + "\n\n" +
    "Ahead, a long line of young men and women stretches toward the sect gates. Some wear fine silks. Others, like you, wear the rough cloth of commoners. A disciple in crimson robes watches from above, her gaze sweeping the crowd like a hawk surveying prey."
    + "\n\n" +
    "<span class=\"text-blue-400\">[The Crimson Lotus Sect entrance trials begin at noon. You have arrived early. The atmosphere is tense with ambition and fear.]</span>"

  /** The free texts of the opening state. */
  datatype OpeningTexts = OpeningTexts(
    name: string,
    physicalDescription: string,
    personality: string,
    goal: string,
    status: string,
    worldDescription: string,
    actName: string,
    actOutline: string,
    sceneText: string,
    sceneContext: string)

  const Texts := OpeningTexts(
    name := "Li Wei",
    physicalDescription := "A young man with sharp eyes and calloused hands from years of labor.",
    personality := "Determined and curious, with a hidden fierce streak.",
    goal := "Rise beyond mortal limits and uncover the truth behind my parents' disappearance.",
    status := "Eager",
    worldDescription := "A world where cultivation determines one's fate. Sects war for resources, and the path to immortality is paved with tribulation.",
    actName := "The Awakening",
    actOutline := "Li Wei discovers a fragment of a cultivation manual in a collapsed mine. He begins his journey by finding a sect willing to accept a commoner. He must pass an entrance trial while hiding his unusual affinity.",
    sceneText := OpeningText,
    sceneContext := "You stand at the foot of Azure Peak, where the Crimson Lotus Sect accepts new disciples once a year.")

  /** The player's entity id in a new game. */
  const PlayerId := 1

  /** The opening state around the texts `t`: one player entity at full
      energy and health, cultivation level 1, satisfaction 50, with no
      techniques, items or relationships; the opening act, and a scene titled
      after it; the calendar at day 1 of month 3 of year 4024; no history.
      It meets the invariant every turn keeps. */
  function NewGameFrom(t: OpeningTexts): (g: FullGameState)
    ensures ValidState(g)
    ensures g.entities.Keys == {g.playerId} && g.entities[g.playerId].isPlayer
    ensures g.narrativeHistory == [] && g.id.None?
    ensures g.currentScene.title == g.currentAct.name
    ensures g.playerId == PlayerId && g.worldData == WorldData(4024, 3, 1)
    ensures
      var p := g.entities[g.playerId];
      && p.energy == p.maxEnergy == 100 && p.health == p.maxHealth == 100 && p.satisfaction == 50
      && p.cultivation == Cultivation(StageName(1), 1)
      && p.techniques == [] && p.items == [] && p.relationships == []
  {
    var player := Entity(
      id := PlayerId,
      name := t.name,
      age := 16,
      maxAge := 150,
      energy := 100,
      maxEnergy := 100,
      health := 100,
      maxHealth := 100,
      cultivation := Cultivation(StageName(1), 1),
      physicalDescription := t.physicalDescription,
      techniques := [],
      items := [],
      personality := t.personality,
      satisfaction := 50,
      goal := t.goal,
      status := t.status,
      relationships := [],
      isPlayer := true,
      factionIds := None);
    FullGameState(
      id := None,
      playerId := PlayerId,
      entities := map[PlayerId := player],
      factions := None,
      worldDescription := t.worldDescription,
      currentAct := Act(t.actName, t.actOutline),
      currentScene := Scene(t.actName, t.sceneText, t.sceneContext),
      worldData := WorldData(4024, 3, 1),
      narrativeHistory := [])
  }

  /** The stage name of level 1 is the one the new player starts with. */
  lemma FirstStageName()
    ensures StageName(1) == "Qi Condensation"
  {
  }

  /** `createNewGame()`: the opening state around the game's own texts. */
  function CreateNewGame(): FullGameState {
    NewGameFrom(Texts)
  }

  /** From a new game, whatever the replies, every run of turns leaves a
      valid state with at most one history entry per turn. */
  lemma NewGameStaysValid(
    t: OpeningTexts,
    parseReply: string -> Option<Parsed<ParserReply>>,
    parseAct: string -> Option<Parsed<Act>>,
    inputs: seq<TurnInput>)
    ensures ValidState(PlayTurns(parseReply, parseAct, NewGameFrom(t), inputs))
    ensures |PlayTurns(parseReply, parseAct, NewGameFrom(t), inputs).narrativeHistory| <= |inputs|
  {
    PlayTurnsKeepsInvariant(parseReply, parseAct, NewGameFrom(t), inputs);
  }
}
