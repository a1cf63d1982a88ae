/** The game-state records the engine reads and writes. Every record is an
    immutable value: a turn builds a new snapshot instead of editing one in
    place, which is what the engine's `structuredClone` before each edit
    achieves. Entities refer to each other by integer id only. */
module Types {
  import opened Wrappers

  datatype Technique = Technique(name: string, masteryLevel: nat, description: string, energyCost: int)

  datatype Item = Item(name: string, description: string)

  /** A non-owning reference to another entity, with a bond score. */
  datatype Relationship = Relationship(targetEntity: int, bond: int, description: string)

  /** A cultivation stage name and the numeric level it is derived from. */
  datatype Cultivation = Cultivation(name: string, level: nat)

  datatype Entity = Entity(
    id: int,
    name: string,
    age: int,
    maxAge: int,
    energy: int,
    maxEnergy: int,
    health: int,
    maxHealth: int,
    cultivation: Cultivation,
    physicalDescription: string,
    techniques: seq<Technique>,
    items: seq<Item>,
    personality: string,
    satisfaction: int,
    goal: string,
    status: string,
    relationships: seq<Relationship>,
    isPlayer: bool,
    factionIds: Option<seq<int>>)

  datatype Faction = Faction(name: string, description: string)

  datatype Act = Act(name: string, outline: string)

  datatype Scene = Scene(title: string, text: string, context: string)

  datatype NarrativeEntry = NarrativeEntry(sceneTitle: string, text: string, playerInput: string, timestamp: int)

  datatype WorldData = WorldData(year: int, month: int, day: int)

  /** The unit of persistence and of mutation per turn. */
  datatype FullGameState = FullGameState(
    id: Option<string>,
    playerId: int,
    entities: map<int, Entity>,
    factions: Option<map<int, Faction>>,
    worldDescription: string,
    currentAct: Act,
    currentScene: Scene,
    worldData: WorldData,
    narrativeHistory: seq<NarrativeEntry>)

  datatype RelationshipChange = RelationshipChange(targetId: int, bondDelta: int)

  /** Proposed effects of one player action. A numeric field that is None
      stands for a missing (`undefined`) property. */
  datatype StatChanges = StatChanges(
    energy: Option<int>,
    health: Option<int>,
    satisfaction: Option<int>,
    cultivationProgress: Option<int>,
    newTechnique: Option<Technique>,
    relationshipChanges: Option<seq<RelationshipChange>>)

  /** The empty change set `{}`. */
  const NoChanges := StatChanges(None, None, None, None, None, None)
}
