/** One player turn, `processPlayerTurn` (client/src/lib/engine.ts). The three
    language-model calls become their reply strings, `Date.now()` becomes a
    timestamp parameter, and `JSON.parse` followed by reading the fields the
    engine uses becomes a decoding oracle per reply. The status callbacks
    become the trace the turn returns. */
module Turn {
  import opened Wrappers
  import opened Text
  import opened Extract
  import opened Types
  import opened Stats
  import opened Calendar

  /** The engine statuses a turn reports. */
  datatype Status = Idle | Parsing | GeneratingAct | GeneratingScene

  /** The status changes a turn makes: parsing, then act generation when the
      act ended, then scene generation, then idle. */
  predicate Step(a: Status, b: Status) {
    || (a == Parsing && (b == GeneratingAct || b == GeneratingScene))
    || (a == GeneratingAct && b == GeneratingScene)
    || (a == GeneratingScene && b == Idle)
  }

  /** A status trace that starts with parsing and moves by steps only. */
  predicate StepsFromParsing(t: seq<Status>) {
    |t| > 0 && t[0] == Parsing && forall k :: 0 < k < |t| ==> Step(t[k - 1], t[k])
  }

  /** Idle has no successor, so a trace that moves by steps reports idle at
      most once, as its last status. */
  lemma IdleOnlyLast(t: seq<Status>)
    requires StepsFromParsing(t)
    ensures forall k :: 0 <= k < |t| - 1 ==> t[k] != Idle
  {
    forall k | 0 <= k < |t| - 1
      ensures t[k] != Idle
    {
      assert Step(t[k + 1 - 1], t[k + 1]);
    }
  }

  /** How the turn reads the parser's output. */
  datatype ParseResult = ParseResult(intent: string, statChanges: StatChanges, actEnded: bool, nextSceneHint: string)

  /** The parser reply as decoded: `statChanges` is None when the property is
      missing or `null`, which makes `sanitizeStatChanges` throw on reading a
      delta. Any other value that is not an object has no delta properties
      and decodes as `NoChanges`. */
  datatype ParserReply = ParserReply(intent: string, statChanges: Option<StatChanges>, actEnded: bool, nextSceneHint: string)

  /** `defaultParseResult`: the reading used when the parser reply yields
      nothing usable. The intent is the input itself; the act goes on; the
      only change is two energy spent, a change set already in sanitized
      form; the hint names the attempted input. */
  function DefaultParseResult(playerInput: string): (r: ParseResult)
    ensures r.intent == playerInput && !r.actEnded
    ensures r.statChanges.energy == Some(-2)
    ensures r.statChanges == NoChanges.(energy := r.statChanges.energy)
    ensures Sanitize(r.statChanges) == r.statChanges
    ensures r.nextSceneHint == "The player attempts to " + playerInput + "."
  {
    ParseResult(playerInput, NoChanges.(energy := Some(-2)), false, "The player attempts to " + playerInput + ".")
  }

  /** The truthy value an extraction produced, if any. */
  function Usable<T>(x: Option<Parsed<T>>): Option<T> {
    match x
    case Some(Truthy(v)) => Some(v)
    case _ => None
  }

  /** How `processPlayerTurn` reads the parser reply: a truthy extraction
      with sanitized changes, otherwise the default. None stands for the
      TypeError of sanitizing a missing or `null` `statChanges`. */
  function TurnParse(parseReply: string -> Option<Parsed<ParserReply>>, parserRaw: string, playerInput: string)
    : (r: Option<ParseResult>)
    ensures Usable(ExtractJson(parseReply, parserRaw)).None? ==> r == Some(DefaultParseResult(playerInput))
    ensures Usable(ExtractJson(parseReply, parserRaw)).Some? ==>
      var p := Usable(ExtractJson(parseReply, parserRaw)).value;
      && (r.None? <==> p.statChanges.None?)
      && (r.Some? ==> r.value.intent == p.intent && r.value.actEnded == p.actEnded
                      && r.value.nextSceneHint == p.nextSceneHint
                      && r.value.statChanges == Sanitize(p.statChanges.value))
    ensures r.Some? ==> WithinSanitizedBounds(r.value.statChanges)
  {
    match Usable(ExtractJson(parseReply, parserRaw))
    case None => Some(DefaultParseResult(playerInput))
    case Some(p) =>
      if p.statChanges.None? then None
      else Some(ParseResult(p.intent, Sanitize(p.statChanges.value), p.actEnded, p.nextSceneHint))
  }

  /** An extracted act that the turn accepts. */
  predicate AcceptedAct(extracted: Option<Parsed<Act>>, a: Act) {
    extracted == Some(Truthy(a)) && a.name != "" && a.outline != ""
  }

  /** The act step of `processPlayerTurn`: the extracted act replaces the current one when, and
      only when, it is truthy and has a non-empty name and outline. */
  function NextAct(current: Act, extracted: Option<Parsed<Act>>): (r: Act)
    ensures r != current ==> AcceptedAct(extracted, r)
    ensures forall a :: AcceptedAct(extracted, a) ==> r == a
  {
    match Usable(extracted)
    case Some(a) => if a.name != "" && a.outline != "" then a else current
    case None => current
  }

  /** The invariant every turn keeps: the player exists, each entity is valid
      and stored under its own id, and the date is on the calendar. */
  predicate ValidState(s: FullGameState) {
    && s.playerId in s.entities
    && ValidEntities(s.entities)
    && ValidDate(s.worldData)
  }

  /** A completed turn, with the statuses it reported and the new snapshot;
      or a turn that threw, with the statuses reported before it did. */
  datatype TurnOutcome = Completed(trace: seq<Status>, state: FullGameState) | Crashed(trace: seq<Status>)

  /** `processPlayerTurn`. The input snapshot is never altered. */
  function ProcessPlayerTurn(
    parseReply: string -> Option<Parsed<ParserReply>>,
    parseAct: string -> Option<Parsed<Act>>,
    state: FullGameState,
    playerInput: string,
    parserRaw: string,
    actRaw: string,
    sceneRaw: string,
    now: int): (r: TurnOutcome)
    // when it throws, and what it reported by then
    ensures r.Crashed? <==>
      TurnParse(parseReply, parserRaw, playerInput).None?
      || (state.playerId !in state.entities && Touches(TurnParse(parseReply, parserRaw, playerInput).value.statChanges))
    ensures r.Crashed? ==> r.trace == [Parsing]
    // the statuses of a completed turn
    ensures r.Completed? ==> StepsFromParsing(r.trace) && r.trace[|r.trace| - 1] == Idle
    ensures r.Completed? ==>
      (GeneratingAct in r.trace <==> TurnParse(parseReply, parserRaw, playerInput).value.actEnded)
    // the stat changes
    ensures r.Completed? ==>
      r.state.entities == ApplyStatChanges(state, TurnParse(parseReply, parserRaw, playerInput).value.statChanges).value.entities
    // the act
    ensures r.Completed? && r.state.currentAct != state.currentAct ==>
      TurnParse(parseReply, parserRaw, playerInput).value.actEnded
      && AcceptedAct(ExtractJson(parseAct, actRaw), r.state.currentAct)
    ensures r.Completed? && TurnParse(parseReply, parserRaw, playerInput).value.actEnded ==>
      forall a :: AcceptedAct(ExtractJson(parseAct, actRaw), a) ==> r.state.currentAct == a
    // the scene and the history
    ensures r.Completed? ==>
      r.state.currentScene == Scene(r.state.currentAct.name, Trim(sceneRaw),
                                    TurnParse(parseReply, parserRaw, playerInput).value.nextSceneHint)
    ensures r.Completed? ==>
      && |r.state.narrativeHistory| == |state.narrativeHistory| + 1
      && r.state.narrativeHistory[..|state.narrativeHistory|] == state.narrativeHistory
      && r.state.narrativeHistory[|state.narrativeHistory|] ==
           NarrativeEntry(r.state.currentAct.name, Trim(sceneRaw), playerInput, now)
    // the clock
    ensures r.Completed? ==> r.state.worldData == AdvanceDay(state.worldData)
    ensures r.Completed? && ValidDate(state.worldData) ==>
      Ordinal(r.state.worldData) == Ordinal(state.worldData) + 1
    // nothing else changes, and the invariant holds
    ensures r.Completed? ==>
      && r.state.id == state.id && r.state.playerId == state.playerId
      && r.state.factions == state.factions && r.state.worldDescription == state.worldDescription
    ensures r.Completed? && ValidState(state) ==> ValidState(r.state)
  {
    var choice := TurnParse(parseReply, parserRaw, playerInput);
    if choice.None? then Crashed([Parsing])
    else
      var pr := choice.value;
      var applied := ApplyStatChanges(state, pr.statChanges);
      if applied.None? then Crashed([Parsing])
      else
        FinishTurn(parseAct, applied.value, pr, playerInput, actRaw, sceneRaw, now)
  }

  /** The steps of `processPlayerTurn` after the stat changes are applied to
      give `s`: the act, the scene, the history entry and the clock. */
  function FinishTurn(
    parseAct: string -> Option<Parsed<Act>>,
    s: FullGameState,
    pr: ParseResult,
    playerInput: string,
    actRaw: string,
    sceneRaw: string,
    now: int): (r: TurnOutcome)
    ensures r.Completed?
    ensures StepsFromParsing(r.trace) && r.trace[|r.trace| - 1] == Idle
    ensures GeneratingAct in r.trace <==> pr.actEnded
    ensures r.state.currentAct != s.currentAct ==>
      pr.actEnded && AcceptedAct(ExtractJson(parseAct, actRaw), r.state.currentAct)
    ensures pr.actEnded ==> forall a :: AcceptedAct(ExtractJson(parseAct, actRaw), a) ==> r.state.currentAct == a
    ensures r.state.currentScene == Scene(r.state.currentAct.name, Trim(sceneRaw), pr.nextSceneHint)
    ensures r.state.narrativeHistory ==
      s.narrativeHistory + [NarrativeEntry(r.state.currentAct.name, Trim(sceneRaw), playerInput, now)]
    ensures r.state.worldData == AdvanceDay(s.worldData)
    ensures r.state == s.(currentAct := r.state.currentAct, currentScene := r.state.currentScene,
                          narrativeHistory := r.state.narrativeHistory, worldData := r.state.worldData)
  {
    var act := if pr.actEnded then NextAct(s.currentAct, ExtractJson(parseAct, actRaw)) else s.currentAct;
    var trace :=
      if pr.actEnded then [Parsing, GeneratingAct, GeneratingScene, Idle] else [Parsing, GeneratingScene, Idle];
    var scene := Scene(act.name, Trim(sceneRaw), pr.nextSceneHint);
    var entry := NarrativeEntry(scene.title, scene.text, playerInput, now);
    Completed(trace, s.(currentAct := act, currentScene := scene,
                        narrativeHistory := s.narrativeHistory + [entry],
                        worldData := AdvanceDay(s.worldData)))
  }

  /** When nothing usable comes out of the parser reply, the turn completes
      with the default reading: no act generation, the default scene hint,
      and two energy spent (not below zero); the rest of the player record is
      untouched. */
  lemma FallbackTurn(
    parseReply: string -> Option<Parsed<ParserReply>>,
    parseAct: string -> Option<Parsed<Act>>,
    state: FullGameState, playerInput: string,
    parserRaw: string, actRaw: string, sceneRaw: string, now: int)
    requires ValidState(state)
    requires Usable(ExtractJson(parseReply, parserRaw)).None?
    ensures
      var r := ProcessPlayerTurn(parseReply, parseAct, state, playerInput, parserRaw, actRaw, sceneRaw, now);
      var p := state.entities[state.playerId];
      && r.Completed?
      && r.trace == [Parsing, GeneratingScene, Idle]
      && r.state.currentAct == state.currentAct
      && r.state.currentScene.context == "The player attempts to " + playerInput + "."
      && r.state.entities[state.playerId] == p.(energy := if p.energy < 2 then 0 else p.energy - 2)
  {
  }

  /** What a caller holds after a run of turns: the snapshot of the last turn
      that completed (a turn that throws leaves the previous one in place). */
  datatype TurnInput = TurnInput(playerInput: string, parserRaw: string, actRaw: string, sceneRaw: string, now: int)

  function PlayTurns(
    parseReply: string -> Option<Parsed<ParserReply>>,
    parseAct: string -> Option<Parsed<Act>>,
    state: FullGameState,
    inputs: seq<TurnInput>): FullGameState
    decreases |inputs|
  {
    if |inputs| == 0 then state
    else
      var t := inputs[0];
      match ProcessPlayerTurn(parseReply, parseAct, state, t.playerInput, t.parserRaw, t.actRaw, t.sceneRaw, t.now)
      case Crashed(_) => PlayTurns(parseReply, parseAct, state, inputs[1..])
      case Completed(_, next) => PlayTurns(parseReply, parseAct, next, inputs[1..])
  }

  /** Over any run of turns the invariant holds, the history only grows at its
      end, by at most one entry per turn, and the player id never changes. */
  lemma {:induction false} PlayTurnsKeepsInvariant(
    parseReply: string -> Option<Parsed<ParserReply>>,
    parseAct: string -> Option<Parsed<Act>>,
    state: FullGameState,
    inputs: seq<TurnInput>)
    requires ValidState(state)
    ensures ValidState(PlayTurns(parseReply, parseAct, state, inputs))
    ensures PlayTurns(parseReply, parseAct, state, inputs).playerId == state.playerId
    ensures |state.narrativeHistory| <= |PlayTurns(parseReply, parseAct, state, inputs).narrativeHistory|
      <= |state.narrativeHistory| + |inputs|
    ensures PlayTurns(parseReply, parseAct, state, inputs).narrativeHistory[..|state.narrativeHistory|]
      == state.narrativeHistory
    decreases |inputs|
  {
    if |inputs| > 0 {
      var t := inputs[0];
      var r := ProcessPlayerTurn(parseReply, parseAct, state, t.playerInput, t.parserRaw, t.actRaw, t.sceneRaw, t.now);
      var next := if r.Completed? then r.state else state;
      PlayTurnsKeepsInvariant(parseReply, parseAct, next, inputs[1..]);
      var last := PlayTurns(parseReply, parseAct, next, inputs[1..]);
      assert last == PlayTurns(parseReply, parseAct, state, inputs);
      assert last.narrativeHistory[..|state.narrativeHistory|]
          == last.narrativeHistory[..|next.narrativeHistory|][..|state.narrativeHistory|];
    }
  }
}
