# cultichat turn engine, in Dafny

A model of the turn pipeline of the cultichat cultivation role-play game. In
the game, a small in-browser language model reads what the player types. It
proposes stat changes for the player, and it writes the next scene. The
engine, `client/src/lib/engine.ts`, turns those replies into a new game
snapshot.

All of it is modelled as pure functions over immutable datatypes:

- `extractJSON`, the three-strategy recovery of a JSON value from a chatty
  reply;
- `clamp` and `sanitizeStatChanges`;
- the copy-on-write `applyStatChanges`;
- `defaultParseResult`;
- `processPlayerTurn`;
- `createNewGame`.

The three model calls of a turn become three reply strings. `Date.now()`
becomes a timestamp parameter. The status callback becomes the trace of
statuses that the turn returns.

Modules, one per file:

- `Wrappers` holds `Option`.
- `Text` holds the JavaScript string built-ins the engine uses: `trim`,
  `indexOf`, `lastIndexOf`, and the pieces of the fenced-block regular
  expression.
- `Extract` holds `extractJSON`.
- `Types` holds the game-state records.
- `Stats` holds `clamp`, sanitizing, applying stat changes, and the entity
  invariant.
- `Calendar` holds the world clock.
- `Turn` holds `processPlayerTurn`, and runs of turns.
- `NewGame` holds `createNewGame`.

`JSON.parse` is not modelled. Each use of it is a parameter: a function from
the candidate text to `Option<Parsed<T>>`. It returns `None` where
`JSON.parse` throws, and `Falsy` where the value parses but is falsy (`null`,
`false`, `0`, `""`). Otherwise it returns `Truthy` of the fields that the
engine reads.

Two of the engine's throwing cases are modelled. Each of them becomes a
`Crashed` turn whose trace stops at `parsing`. A third is not modelled; it is
listed under "Left out".

- A truthy parser reply whose `statChanges` is missing or `null` makes
  `sanitizeStatChanges` throw when it reads a delta.
  Any other non-object value has no delta properties. It is read as the
  empty change set.
- A change set that reads a player the state does not have makes
  `applyStatChanges` throw. The change set reads the player when it has any
  of these:
  - a truthy delta;
  - positive progress;
  - a technique;
  - a non-empty list of relationship changes.

## Model

| member | source | states |
|---|---|---|
| Text.Trim | client/src/lib/engine.ts:43 | the result is the input minus a leading and a trailing run of JavaScript white space, and neither starts nor ends with white space |
| Text.IndexOf | client/src/lib/engine.ts:47 | the first index of the character, or -1 exactly when it does not occur |
| Text.LastIndexOf | client/src/lib/engine.ts:48 | the last index of the character, or -1 exactly when it does not occur |
| Extract.FenceInteriorMatches | client/src/lib/engine.ts:40 | the fenced-block match:<br>• opens at the first fence;<br>• skips the `json` tag whenever it is there, then the white space after it;<br>• captures up to the next fence.<br>There is a match exactly when two non-overlapping fences exist |
| Extract.FenceCandidate | client/src/lib/engine.ts:40-43 | the second strategy is tried exactly when two non-overlapping fences exist. It is the trimmed text that:<br>• starts after the first fence, the `json` tag if present, and the white space that follows;<br>• ends at the next fence |
| Extract.BraceCandidate | client/src/lib/engine.ts:47-51 | the third strategy is tried exactly when some `{` comes before some `}`; it is a slice that starts at the first `{` and ends at the last `}` |
| Extract.ExtractJson | client/src/lib/engine.ts:35-56 | the whole reply is used when it parses; otherwise the fenced candidate is used when it parses; otherwise the braced candidate is parsed, if there is one; otherwise the result is nothing |
| Extract.FirstSuccessSpec | client/src/lib/engine.ts:35-56 | an ordered search returns the parse of the earliest candidate that parses, after only failures, and returns nothing exactly when every candidate fails |
| Extract.ExtractJsonIsFirstSuccess | client/src/lib/engine.ts:35-56 | `extractJSON` is the ordered search over the whole reply, the fenced candidate and the braced candidate, so it yields nothing exactly when all three fail |
| Extract.FencedBodyRecovered | client/src/lib/engine.ts:40-45 | prose, then a fence with an optional `json` tag, then a JSON body, then a closing fence, gives back the parse of that body when the whole reply does not parse |
| Extract.BracedBodyRecovered | client/src/lib/engine.ts:47-53 | one object amid brace-free prose gives back the parse of that object when the first two strategies fail |
| Stats.Clamp | client/src/lib/engine.ts:58-60 | with a non-empty range, the value is kept when it fits, and otherwise the bound it overshoots is returned; with an empty range the result is the lower bound |
| Stats.Sanitize | client/src/lib/engine.ts:109-117 | a missing or zero delta comes out missing; energy, health and satisfaction deltas come out clamped into [-20, 20]; progress comes out clamped into [0, 5]; the technique and the relationship changes are passed through |
| Stats.SanitizeTwice | client/src/lib/engine.ts:109-117 | a property of the sanitizer alone, since the engine sanitizes once: sanitizing again changes only one thing: a progress clamped up to 0 is now dropped |
| Stats.StageIndex | client/src/lib/engine.ts:77-82 | the stage index is within the 7-name table; it is one stage per ten levels, and the last stage covers every level from 60 on |
| Stats.StageIndexMonotone | client/src/lib/engine.ts:81 | a higher level never gives a lower stage |
| Stats.UpdateStat | client/src/lib/engine.ts:66-74 | a stat with a missing or zero delta is unchanged; otherwise the stat plus the delta is clamped into [0, max] |
| Stats.Cultivate | client/src/lib/engine.ts:75-83 | positive progress raises the level by exactly that much and renames the stage after the new level; missing, zero or negative progress changes nothing |
| Stats.AddTechnique | client/src/lib/engine.ts:84-86 | a new technique is appended at the end, and the earlier techniques are unchanged |
| Stats.FindRelationship | client/src/lib/engine.ts:89 | finds the first relationship with the target, or none exactly when no relationship has that target |
| Stats.ApplyBond | client/src/lib/engine.ts:88-93 | only the first relationship with the change's target is altered, and only its bond, which becomes the old bond plus the delta clamped into [0, 10]; an unknown target changes nothing |
| Stats.ApplyBonds | client/src/lib/engine.ts:87-94 | over the whole list of changes:<br>• targets and descriptions are kept;<br>• relationships no change targets are untouched;<br>• a relationship behind an earlier one with the same target is untouched;<br>• every changed bond is in [0, 10] |
| Stats.ApplyBondsKeepsRange | client/src/lib/engine.ts:87-94 | bonds that start in [0, 10] stay there |
| Stats.ApplyToPlayer | client/src/lib/engine.ts:62-94 | only energy, health, satisfaction, cultivation, techniques and relationships can change:<br>• each stat is clamped after a truthy delta and untouched otherwise;<br>• positive progress adds to the level and renames the stage after it;<br>• a given technique is appended;<br>• a list of relationship changes is applied in order;<br>• with nothing given, a field is untouched |
| Stats.ApplyToPlayerValid | client/src/lib/engine.ts:62-94 | the entity invariant is kept whatever the changes: energy, health and satisfaction in range, bonds in [0, 10], and the stage name matching the level |
| Stats.ApplyStatChanges | client/src/lib/engine.ts:62-97 | it throws exactly when the player is missing and the changes read the player. The changes read the player when they have a truthy delta, positive progress, a technique or a non-empty relationship list.<br>A change set that reads nothing leaves the state as it was.<br>Otherwise only the player entry changes; the other entities and the key set are kept, and valid entities stay valid |
| Calendar.AdvanceDay | client/src/lib/engine.ts:174-183 | a valid date stays valid and moves exactly one day on the reference day count; day 30 rolls into the next month, and 30/12 rolls into 1/1 of the next year |
| Calendar.AdvanceDaysOrdinal | client/src/lib/engine.ts:174-183 | n turns move a valid date exactly n days on, and it stays valid |
| Calendar.ThirtyDaysMakeAMonth | client/src/lib/engine.ts:174-183 | thirty turns bring the same day of the next month, or of month 1 of the next year |
| Turn.DefaultParseResult | client/src/lib/engine.ts:99-106 | the default reading:<br>• the intent is the input;<br>• the act does not end;<br>• the only change is -2 energy, which is already in sanitized form;<br>• the hint names the input |
| Turn.TurnParse | client/src/lib/engine.ts:131-134 | nothing usable from the parser gives the default reading.<br>Otherwise the reply's intent, act flag and hint are taken with its changes sanitized, failing exactly when those changes are missing.<br>Any reading obtained keeps every delta within the sanitized bounds |
| Turn.FinishTurn | client/src/lib/engine.ts:139-186 | after the stat changes:<br>• the trace runs from parsing to idle, with act generation exactly when the act ended;<br>• the act changes only as `Turn.NextAct` allows;<br>• the scene is titled after the act;<br>• one history entry is appended;<br>• the clock moves one day;<br>• nothing else changes |
| Turn.NextAct | client/src/lib/engine.ts:144-147 | the act changes only to an extracted truthy act with a non-empty name and outline, and always changes to such an act |
| Turn.IdleOnlyLast | client/src/lib/engine.ts:128-185 | a trace that moves by the engine's status steps reports idle at most once, and only last |
| Turn.ProcessPlayerTurn | client/src/lib/engine.ts:119-187 | <ul><li>the turn crashes exactly in the two modelled throwing cases, and a crash leaves the trace at `parsing`;</li><li>a completed trace runs parsing, then act generation exactly when the act ended, then scene generation, then idle;</li><li>the entities are those after applying the sanitized or default changes;</li><li>the act changes only as `Turn.NextAct` allows;</li><li>the scene is titled after the act, holds the trimmed reply and carries the hint;</li><li>the history gains exactly one entry at its end;</li><li>the date advances by one day;</li><li>the id, player id, factions and world description are kept;</li><li>the state invariant is kept.</li></ul> |
| Turn.FallbackTurn | client/src/lib/engine.ts:131-137 | with nothing usable from the parser:<br>• the turn completes without act generation;<br>• the act is kept and the hint is the default one;<br>• the player loses two energy, but not below zero |
| Turn.PlayTurnsKeepsInvariant | client/src/lib/engine.ts:119-187 | over any run of turns, crashed or not:<br>• the state invariant holds;<br>• the player id is kept;<br>• earlier history is kept;<br>• the history grows by at most one entry per turn |
| NewGame.NewGameFrom | client/src/lib/engine.ts:189-233 | the opening state:<br>• meets the state invariant;<br>• has the player as its only entity, with full energy and health, satisfaction 50, level 1 at its stage name, and nothing learned or known;<br>• starts on day 1 of month 3 of year 4024, with no history and a scene titled after the act |
| NewGame.FirstStageName | client/src/lib/engine.ts:202 | level 1 is at the "Qi Condensation" stage, the name the new player is given |
| NewGame.NewGameStaysValid | client/src/lib/engine.ts:189-233 | from a new game, every run of turns leaves a valid state with at most one history entry per turn |

## Left out

- `llmCall` is a call into the web-llm engine. Its three uses in a turn become the reply strings `parserRaw`, `actRaw` and `sceneRaw`. The prompts that go into these calls are not modelled: `client/src/lib/prompts.ts` holds only empty stubs.
- `JSON.parse` and the reading of the parsed value's fields are a parameter, not a model. A `statChanges` that is neither an object nor missing nor `null` (a number, string or boolean) has no delta properties. The reading is expected to give the empty change set for it. A parsed act missing `name` or `outline` is read as having an empty one. `actEnded` is read as its truthiness.
- `Date.now()` is a parameter of the turn.
- JavaScript numbers are modelled as unbounded integers:
  - NaN, infinities and fractional deltas are not modelled.
  - The cultivation level is a natural number, so `Math.floor(level / 10)` is integer division and the stage index is never negative.
- Strings are sequences of code points rather than UTF-16 code units. This can shift indices only for text outside the Basic Multilingual Plane.
- Status callbacks are a returned trace. The trace records the order of statuses, not when they happen relative to the model calls.
- A turn that throws has no try/finally, so its status stays at its last non-idle value. The model states this as a `parsing`-only trace, not as a return to idle.
- Errors that the model calls themselves throw are not modelled. The reply strings are given.
- `Turn.PlayTurns` is the caller's view of a run: a turn that throws leaves the previous snapshot in place. It is not part of the engine.
- `NewGame.CreateNewGame`'s properties are proved about `NewGame.NewGameFrom`, whatever its texts, and not by evaluating the long literal texts.
- `Item` and `Faction` take shapes the engine never reads, because `client/src/lib/types.ts` does not define them.
- The default scene hint keeps the trailing full stop the code has.
- Stats.ApplyBonds: for a whole list of changes it states which relationships can change, and that every changed bond is in [0, 10]. It gives the exact new bond only per entry, in `Stats.ApplyBond`.
- Stats.ApplyStatChanges: the decoding assumes that a truthy `relationshipChanges` is an array of change records. Two TypeErrors are therefore not modelled:
  - iterating a truthy value that is not iterable, such as an object, a number or `true`;
  - reading `targetId` of a `null` entry when the player has a relationship.

  Either one throws even when the player exists.
- Turn.ProcessPlayerTurn: its crash condition covers only the two modelled throwing cases. A turn whose `relationshipChanges` hits one of the TypeErrors above crashes at `parsing` in the engine, but completes in the model.
- Turn.ProcessPlayerTurn: the status trace is stated as a sequence. The interleaving of callbacks with the model calls is not stated.
- The rest of the repository is not modelled: the UI components, model loading, the HTTP API, Supabase persistence and build configuration.
