/** Stat arithmetic of the engine (client/src/lib/engine.ts): `clamp`,
    `sanitizeStatChanges` and `applyStatChanges`, with the entity invariant
    those updates keep. */
module Stats {
  import opened Wrappers
  import opened Types

  /** `clamp(val, min, max)`, that is `Math.max(min, Math.min(max, val))`. */
  function Clamp(v: int, lo: int, hi: int): (r: int)
    ensures lo <= hi ==> Clamped(r, v, lo, hi)
    ensures hi < lo ==> r == lo
  {
    var m := if hi < v then hi else v;
    if lo > m then lo else m
  }

  /** `x` is `v` forced into `[lo, hi]`: `v` itself when it fits, otherwise the
      bound it overshoots. */
  predicate Clamped(x: int, v: int, lo: int, hi: int) {
    && lo <= x <= hi
    && (lo <= v <= hi ==> x == v)
    && (v < lo ==> x == lo)
    && (hi < v ==> x == hi)
  }

  /** A numeric property is truthy: present, and not zero. */
  predicate Given(d: Option<int>) {
    d.Some? && d.value != 0
  }

  /** What sanitizing does to one delta: a missing or zero delta comes out
      missing, any other is forced into `[lo, hi]`. */
  predicate SanitizedFrom(r: Option<int>, d: Option<int>, lo: int, hi: int) {
    && (r.Some? <==> Given(d))
    && (r.Some? ==> Clamped(r.value, d.value, lo, hi))
  }

  function SanitizeDelta(d: Option<int>, lo: int, hi: int): (r: Option<int>)
    requires lo <= hi
    ensures SanitizedFrom(r, d, lo, hi)
  {
    if Given(d) then Some(Clamp(d.value, lo, hi)) else None
  }

  /** `sanitizeStatChanges`: energy, health and satisfaction deltas into
      [-20, 20], cultivation progress into [0, 5], everything else as given. */
  function Sanitize(c: StatChanges): (r: StatChanges)
    ensures SanitizedFrom(r.energy, c.energy, -20, 20)
    ensures SanitizedFrom(r.health, c.health, -20, 20)
    ensures SanitizedFrom(r.satisfaction, c.satisfaction, -20, 20)
    ensures SanitizedFrom(r.cultivationProgress, c.cultivationProgress, 0, 5)
    ensures r.newTechnique == c.newTechnique && r.relationshipChanges == c.relationshipChanges
  {
    c.(energy := SanitizeDelta(c.energy, -20, 20),
       health := SanitizeDelta(c.health, -20, 20),
       satisfaction := SanitizeDelta(c.satisfaction, -20, 20),
       cultivationProgress := SanitizeDelta(c.cultivationProgress, 0, 5))
  }

  /** The bounds a sanitized change set keeps: energy, health and
      satisfaction deltas in [-20, 20], progress in [0, 5]. */
  predicate WithinSanitizedBounds(c: StatChanges) {
    && (c.energy.Some? ==> -20 <= c.energy.value <= 20)
    && (c.health.Some? ==> -20 <= c.health.value <= 20)
    && (c.satisfaction.Some? ==> -20 <= c.satisfaction.value <= 20)
    && (c.cultivationProgress.Some? ==> 0 <= c.cultivationProgress.value <= 5)
  }

  /** Sanitizing twice differs from sanitizing once only where a negative
      progress was clamped to 0: the second pass reads that 0 as missing. */
  lemma SanitizeTwice(c: StatChanges)
    ensures Sanitize(Sanitize(c)) == Sanitize(c).(cultivationProgress :=
      if Sanitize(c).cultivationProgress == Some(0) then None else Sanitize(c).cultivationProgress)
  {
  }

  /** The cultivation stage names, lowest first. */
  const StageNames: seq<string> := [
    "Qi Condensation", "Foundation Establishment", "Core Formation",
    "Nascent Soul", "Spirit Severing", "Dao Seeking", "Immortal Ascension"
  ]

  /** `Math.min(Math.floor(level / 10), stageNames.length - 1)`: one stage per
      ten levels, the last stage for every level from 60 on. */
  function StageIndex(level: nat): (k: nat)
    ensures k < |StageNames|
    ensures 10 * k <= level
    ensures k < |StageNames| - 1 ==> level < 10 * (k + 1)
  {
    if level / 10 < |StageNames| - 1 then level / 10 else |StageNames| - 1
  }

  function StageName(level: nat): string {
    StageNames[StageIndex(level)]
  }

  /** Higher levels never fall to a lower stage. */
  lemma StageIndexMonotone(a: nat, b: nat)
    requires a <= b
    ensures StageIndex(a) <= StageIndex(b)
  {
  }

  /** The first relationship, in list order, whose target is `target`. */
  function FindRelationship(rels: seq<Relationship>, target: int): (r: Option<nat>)
    ensures r.Some? ==> r.value < |rels| && rels[r.value].targetEntity == target
    ensures r.Some? ==> forall k :: 0 <= k < r.value ==> rels[k].targetEntity != target
    ensures r.None? <==> forall k :: 0 <= k < |rels| ==> rels[k].targetEntity != target
  {
    if |rels| == 0 then None
    else if rels[0].targetEntity == target then Some(0)
    else
      var found := FindRelationship(rels[1..], target);
      assert forall k :: 1 <= k < |rels| ==> rels[k] == rels[1..][k - 1];
      match found
      case None => None
      case Some(k) => Some(k + 1)
  }

  /** Relationships `k` and after are not the first with their target. */
  predicate Shadowed(rels: seq<Relationship>, k: int)
    requires 0 <= k < |rels|
  {
    exists j :: 0 <= j < k && rels[j].targetEntity == rels[k].targetEntity
  }

  /** One `relationshipChanges` entry: the first relationship with that
      target gets its bond moved by the delta and clamped to [0, 10]; with
      no such relationship nothing changes. */
  function ApplyBond(rels: seq<Relationship>, rc: RelationshipChange): (r: seq<Relationship>)
    ensures |r| == |rels|
    ensures forall k :: 0 <= k < |rels| ==>
      r[k].targetEntity == rels[k].targetEntity && r[k].description == rels[k].description
    ensures forall k :: 0 <= k < |rels| && rels[k].targetEntity != rc.targetId ==> r[k] == rels[k]
    ensures forall k :: 0 <= k < |rels| && Shadowed(rels, k) ==> r[k] == rels[k]
    ensures forall k :: 0 <= k < |rels| && rels[k].targetEntity == rc.targetId && !Shadowed(rels, k) ==>
      Clamped(r[k].bond, rels[k].bond + rc.bondDelta, 0, 10)
  {
    match FindRelationship(rels, rc.targetId)
    case None => rels
    case Some(i) =>
      var r := rels[i := rels[i].(bond := Clamp(rels[i].bond + rc.bondDelta, 0, 10))];
      assert forall k :: 0 <= k < |rels| && Shadowed(rels, k) ==> k != i;
      assert forall k :: 0 <= k < |rels| && rels[k].targetEntity == rc.targetId && !Shadowed(rels, k) ==> k == i;
      r
  }

  predicate BondsInRange(rels: seq<Relationship>) {
    forall k :: 0 <= k < |rels| ==> 0 <= rels[k].bond <= 10
  }

  /** Targets no change in `changes` refers to. */
  predicate Untargeted(changes: seq<RelationshipChange>, target: int) {
    forall m :: 0 <= m < |changes| ==> changes[m].targetId != target
  }

  /** The `relationshipChanges` loop, applying the entries in order. Every
      relationship keeps its target and description; one no entry targets,
      and one behind an earlier relationship with the same target, is left
      alone; every bond that changes lands in [0, 10]. */
  function ApplyBonds(rels: seq<Relationship>, changes: seq<RelationshipChange>): (r: seq<Relationship>)
    ensures |r| == |rels|
    ensures forall k :: 0 <= k < |rels| ==>
      r[k].targetEntity == rels[k].targetEntity && r[k].description == rels[k].description
    ensures forall k :: 0 <= k < |rels| && Untargeted(changes, rels[k].targetEntity) ==> r[k] == rels[k]
    ensures forall k :: 0 <= k < |rels| && Shadowed(rels, k) ==> r[k] == rels[k]
    ensures forall k :: 0 <= k < |rels| ==> r[k] == rels[k] || 0 <= r[k].bond <= 10
    decreases |changes|
  {
    if |changes| == 0 then rels
    else
      var once := ApplyBond(rels, changes[0]);
      var r := ApplyBonds(once, changes[1..]);
      assert forall k :: 0 <= k < |rels| && Shadowed(rels, k) ==> Shadowed(once, k) by {
        forall k | 0 <= k < |rels| && Shadowed(rels, k)
          ensures Shadowed(once, k)
        {
          var j :| 0 <= j < k && rels[j].targetEntity == rels[k].targetEntity;
          assert once[j].targetEntity == once[k].targetEntity;
        }
      }
      assert forall k :: 0 <= k < |rels| && Untargeted(changes, rels[k].targetEntity) ==>
        rels[k].targetEntity != changes[0].targetId && Untargeted(changes[1..], once[k].targetEntity);
      r
  }

  /** Only the first relationship per target, and only those some entry
      targets, can change, and all bonds stay in range. */
  lemma ApplyBondsKeepsRange(rels: seq<Relationship>, changes: seq<RelationshipChange>)
    requires BondsInRange(rels)
    ensures BondsInRange(ApplyBonds(rels, changes))
  {
  }

  /** A player stat after a delta: unchanged when the delta is missing or
      zero, otherwise the sum forced into [0, max] (0 if max is negative). */
  predicate StatUpdated(after: int, before: int, d: Option<int>, max: int) {
    && (!Given(d) ==> after == before)
    && (Given(d) && 0 <= max ==> Clamped(after, before + d.value, 0, max))
    && (Given(d) && max < 0 ==> after == 0)
  }

  /** Positive cultivation progress. */
  predicate Advances(c: StatChanges) {
    Given(c.cultivationProgress) && c.cultivationProgress.value > 0
  }

  /** One player stat after its delta, as `applyStatChanges` updates energy,
      health and satisfaction. */
  function UpdateStat(before: int, d: Option<int>, max: int): (after: int)
    ensures StatUpdated(after, before, d, max)
  {
    if Given(d) then Clamp(before + d.value, 0, max) else before
  }

  /** The cultivation step of `applyStatChanges`: positive progress raises the level by exactly that much
      and renames the stage after the new level; otherwise nothing changes. */
  function Cultivate(cult: Cultivation, c: StatChanges): (r: Cultivation)
    ensures Advances(c) ==> r.level == cult.level + c.cultivationProgress.value
    ensures Advances(c) ==> r.name == StageName(r.level)
    ensures !Advances(c) ==> r == cult
  {
    if Advances(c) then
      var level := cult.level + c.cultivationProgress.value;
      Cultivation(StageName(level), level)
    else cult
  }

  /** The technique step of `applyStatChanges`: a new technique goes at the
      end; the others stay. */
  function AddTechnique(ts: seq<Technique>, t: Option<Technique>): (r: seq<Technique>)
    ensures |r| == |ts| + (if t.Some? then 1 else 0)
    ensures r[..|ts|] == ts
    ensures t.Some? ==> r[|ts|] == t.value
  {
    if t.Some? then
      var r := ts + [t.value];
      assert r[..|ts|] == ts;
      r
    else
      assert ts[..|ts|] == ts;
      ts
  }

  /** The player record as `applyStatChanges` leaves it: only energy,
      health, satisfaction, cultivation, techniques and relationships can
      change. */
  function ApplyToPlayer(p: Entity, c: StatChanges): (q: Entity)
    ensures q == p.(energy := q.energy, health := q.health, satisfaction := q.satisfaction,
                    cultivation := q.cultivation, techniques := q.techniques, relationships := q.relationships)
    ensures StatUpdated(q.energy, p.energy, c.energy, p.maxEnergy)
    ensures StatUpdated(q.health, p.health, c.health, p.maxHealth)
    ensures StatUpdated(q.satisfaction, p.satisfaction, c.satisfaction, 100)
    ensures Advances(c) ==> q.cultivation.level == p.cultivation.level + c.cultivationProgress.value
    ensures Advances(c) ==> q.cultivation.name == StageName(q.cultivation.level)
    ensures !Advances(c) ==> q.cultivation == p.cultivation
    ensures c.newTechnique.Some? ==> q.techniques == p.techniques + [c.newTechnique.value]
    ensures c.newTechnique.None? ==> q.techniques == p.techniques
    ensures c.relationshipChanges.Some? ==> q.relationships == ApplyBonds(p.relationships, c.relationshipChanges.value)
    ensures c.relationshipChanges.None? ==> q.relationships == p.relationships
  {
    p.(energy := UpdateStat(p.energy, c.energy, p.maxEnergy),
       health := UpdateStat(p.health, c.health, p.maxHealth),
       satisfaction := UpdateStat(p.satisfaction, c.satisfaction, 100),
       cultivation := Cultivate(p.cultivation, c),
       techniques := AddTechnique(p.techniques, c.newTechnique),
       relationships :=
         if c.relationshipChanges.Some? then ApplyBonds(p.relationships, c.relationshipChanges.value)
         else p.relationships)
  }

  /** The entity invariant: energy, health and satisfaction in range, every
      bond in [0, 10], and the stage name the one the level calls for. */
  predicate ValidEntity(e: Entity) {
    && 0 <= e.energy <= e.maxEnergy
    && 0 <= e.health <= e.maxHealth
    && 0 <= e.satisfaction <= 100
    && BondsInRange(e.relationships)
    && e.cultivation.name == StageName(e.cultivation.level)
  }

  /** Every entity is valid and stored under its own id. */
  predicate ValidEntities(entities: map<int, Entity>) {
    forall id :: id in entities ==> entities[id].id == id && ValidEntity(entities[id])
  }

  /** `applyStatChanges` keeps the entity invariant, whatever the changes. */
  lemma ApplyToPlayerValid(p: Entity, c: StatChanges)
    requires ValidEntity(p)
    ensures ValidEntity(ApplyToPlayer(p, c))
  {
    if c.relationshipChanges.Some? {
      ApplyBondsKeepsRange(p.relationships, c.relationshipChanges.value);
    }
  }

  /** A change set `applyStatChanges` acts on: it reads the player record
      exactly when a delta is truthy, the progress is positive, a technique
      is given, or the relationship changes hold at least one entry (an
      empty list is truthy, but its loop never runs). */
  predicate Touches(c: StatChanges) {
    || Given(c.energy) || Given(c.health) || Given(c.satisfaction) || Advances(c)
    || c.newTechnique.Some? || (c.relationshipChanges.Some? && |c.relationshipChanges.value| > 0)
  }

  /** `applyStatChanges(state, changes)`. The input is never altered: the
      result is a new snapshot. None stands for the TypeError thrown when
      the player id has no entity and some change needs the player. */
  function ApplyStatChanges(s: FullGameState, c: StatChanges): (r: Option<FullGameState>)
    ensures r.None? <==> s.playerId !in s.entities && Touches(c)
    ensures !Touches(c) ==> r == Some(s)
    ensures r.Some? ==> r.value == s.(entities := r.value.entities)
    ensures r.Some? ==> r.value.entities.Keys == s.entities.Keys
    ensures r.Some? ==> forall id :: id in s.entities && id != s.playerId ==> r.value.entities[id] == s.entities[id]
    ensures s.playerId in s.entities ==>
      r.Some? && r.value.entities[s.playerId] == ApplyToPlayer(s.entities[s.playerId], c)
    ensures r.Some? && ValidEntities(s.entities) ==> ValidEntities(r.value.entities)
  {
    if s.playerId !in s.entities then
      if Touches(c) then None else Some(s)
    else
      var player := s.entities[s.playerId];
      var updated := ApplyToPlayer(player, c);
      assert !Touches(c) ==> s.entities[s.playerId := updated] == s.entities by {
        if !Touches(c) {
          assert updated == player;
        }
      }
      assert ValidEntities(s.entities) ==> ValidEntity(updated) by {
        if ValidEntities(s.entities) {
          ApplyToPlayerValid(player, c);
        }
      }
      Some(s.(entities := s.entities[s.playerId := updated]))
  }
}
