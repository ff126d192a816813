# SolClash battle simulation in Dafny

This project models the authoritative server-side match of SolClash, a lane-battle card game. The model covers the `GameSimulation` object and the shared balance tables and grid rules it runs on.

A match has:
- six towers, three per side: two Queens and one King;
- a registry of troops kept in insertion order;
- one elixir pool per side, capped at 10;
- a tick counter advanced by the 30-per-second game loop.

Each tick runs five steps in order:
1. the counter goes up;
2. movement, combat, elixir regeneration and dead-troop cleanup run, in that order;
3. a snapshot is built for viewers;
4. victory is checked;
5. when there is a winner, the loop stops.

Between ticks, players deploy troops (`placeCard`) and cast area spells (`castSpell`).

Layout:
- **Pure rule modules.** `Constants`, `Movement`, `Targeting`, `Combat`, `Economy`, `Cleanup`, `Spells`, `Victory`, `Match`, `Snapshots` and `Deploy` state each rule as a function and prove its laws as lemmas.
- **The simulation object.** `Simulation.GameSimulation` is a class holding the match state in its fields. It has one method per operation of the source, with the source's loops. Each method is proved to leave its fields exactly as the matching pure function says. The constructor establishes the match invariant `Match.WellFormed`, and `Tick`, `PlaceCard` and `CastSpell` keep it.
- **Scenarios.** `Scenarios` drives the class through concrete matches.

Modelling choices:
- Troop and tower ids are naturals issued by a counter: towers get 0 to 5, troops get 6 and up.
- Distances are compared as squared integers: `getDistance(a, b) <= r` becomes `DistSq(a, b) <= r * r`.
- Spell radii are kept in half cells: FIREBALL 2.5 becomes 5, ARROWS 4 becomes 8.
- Attack periods are kept in tenths of a second, and `Math.round(hitSpeed * 30)` is computed exactly.
- `tick % interval === 0` is modelled with JavaScript semantics: a zero interval never fires.

The model keeps the behaviour as written, including these quirks:
- A target, once locked, is never re-checked for range.
- Direct damage is not floored at zero, while spell damage is.
- A tower's target is never cleared, even after that troop is removed.
- Towers are never removed.
- A troop killed earlier in the combat phase still acquires a target and attacks, and so does one left at 0 health by a spell.
- Spells hit both sides, and the spell point is not mirrored for the opponent.
- The `targets` and `entityType` fields play no part in targeting.
- A Slow troop moves more often than a Medium one (every 15 ticks against every 20).
- The snapshot is built before the victory check (apps/server/src/modules/game/game.simulation.ts:199-208).

Proved facts about the source as written:
- **Bridge trap.** The bridge rule keeps a troop that steps onto row 6 between columns 6 and 17 on that stretch for good (`Movement.BridgeStretchIsClosed`). There it alternates between columns 11 and 12 until it locks on a target (`Movement.BridgeOscillation`).
- **King layout.** The opponent's King is not at the mirror image of the player's King (`Match.InitialLayoutMirror`). `mirrorPosition` flips both axes, so (11, 38) mirrors to (12, 0), but the opponent's King stands at (11, 0).

## Model

| member | source | states |
|---|---|---|
| Constants.MoveInterval | packages/shared/src/constants.ts:35-48 | every movement interval is positive, so the movement cadence test is well defined |
| Constants.SlowMovesMoreOftenThanMedium | packages/shared/src/constants.ts:30-48 | Slow (15 ticks) moves more often than Medium (20): tick 15 moves a Slow troop but not a Medium one |
| Constants.MirrorIsInvolution | packages/shared/src/constants.ts:56-61 | mirrorPosition(x, y) is (23 - x, 38 - y), and mirroring twice gives back (x, y) |
| Constants.MirrorPreservesGrid | packages/shared/src/constants.ts:56-61 | a cell lies on the 24 x 39 grid exactly when its mirror does |
| Constants.MirrorSwapsLanes | packages/shared/src/constants.ts:17-61 | mirroring sends lane column 6 to 17 and 17 to 6 |
| Constants.CardStatsOf | packages/shared/src/constants.ts:82-113 | the troop catalog is exactly ARCHER, GIANT and BARBARIAN; every cost is positive and at most ELIXIR_MAX, every health positive, every attack interval positive |
| Constants.SpellStatsOf | packages/shared/src/constants.ts:118-135 | the spell catalog is exactly FIREBALL and ARROWS, every cost positive and at most ELIXIR_MAX |
| Constants.TowerStatsOf | packages/shared/src/constants.ts:140-153 | both tower kinds have positive health and a positive attack interval |
| Constants.HitIntervalsOfCatalog | packages/shared/src/constants.ts:82-153 | the rounded attack intervals are ARCHER 36, GIANT 45, BARBARIAN 45, KING 30 and QUEEN 24 ticks |
| Movement.CalculateNextPosition | apps/server/src/modules/game/game.simulation.ts:243-267 | every step changes exactly one coordinate by exactly one; off the main path the row is kept and the distance to the nearer lane column drops by one |
| Movement.LaneAdvancesTowardsEnemy | apps/server/src/modules/game/game.simulation.ts:247-256 | on a lane column off the bridge stretch, a troop advances one row: the player towards row 0, the opponent towards row 38 |
| Movement.OffLaneStepsTowardsNearerLane | apps/server/src/modules/game/game.simulation.ts:258-266 | off the main path, a troop steps sideways towards the nearer lane column (6 for columns up to 11, 17 from 12) and never past it |
| Movement.OffLaneReachesLane | apps/server/src/modules/game/game.simulation.ts:243-267 | an off-path troop reaches a lane column on its own row after exactly its lane distance in moves, and stays off the path before that |
| Movement.BridgeStretchIsClosed | apps/server/src/modules/game/game.simulation.ts:249-253 | any number of moves from a cell of row 6 between columns 6 and 17 stays on that stretch |
| Movement.BridgeOscillation | apps/server/src/modules/game/game.simulation.ts:249-253 | from (11, 6) a troop moves to (12, 6) and then back to (11, 6) |
| Movement.MoveTroop | apps/server/src/modules/game/game.simulation.ts:226-237 | a troop moves exactly when it has no target and its speed's cadence divides the tick; a move is one unit step and sets status WALK; nothing else about the troop changes |
| Movement.MovementPhase | apps/server/src/modules/game/game.simulation.ts:225-238 | every troop of the registry, in order, takes its own move for the tick and no other change |
| Targeting.PickIsFirstNearest | apps/server/src/modules/game/game.simulation.ts:319-346 | the scan holds nothing exactly when no candidate is an opposing one in range; otherwise it holds an opposing candidate in range that no other such candidate is strictly nearer than, and that is strictly nearer than every earlier one |
| Targeting.FirstNearestIsUnique | apps/server/src/modules/game/game.simulation.ts:319-346 | at most one candidate satisfies the first-nearest rule |
| Targeting.PickCharacterization | apps/server/src/modules/game/game.simulation.ts:319-346 | the scan returns candidate k if and only if k is the first nearest opposing candidate in range |
| Targeting.NearestTargetSpec | apps/server/src/modules/game/game.simulation.ts:319-346 | findNearestTarget finds nothing exactly when no opposing troop and no opposing tower is in range; otherwise it returns the first nearest one, scanning troops in registry order before towers |
| Targeting.NearestTowerTargetSpec | apps/server/src/modules/game/game.simulation.ts:351-366 | findNearestTowerTarget returns only an opposing troop in range, the first nearest in registry order, and nothing exactly when there is none |
| Combat.FindTroop | apps/server/src/modules/game/game.simulation.ts:373 | the lookup returns the first troop carrying the id, and nothing exactly when no troop carries it |
| Combat.FindTower | apps/server/src/modules/game/game.simulation.ts:393 | the search returns the first tower carrying the id, and nothing exactly when no tower carries it |
| Combat.Locate | apps/server/src/modules/game/game.simulation.ts:371-394 | a target id resolves to a troop before a tower, and to nothing exactly when neither list carries it |
| Combat.DealDamageSpec | apps/server/src/modules/game/game.simulation.ts:371-410 | an id that resolves to nothing changes nothing; otherwise only that entity's health drops, by exactly the damage with no floor, followed by one damage event and, when the health is then at most 0, one die event |
| Combat.AcquireTargetSpec | apps/server/src/modules/game/game.simulation.ts:275-287 | a troop without a target takes the nearest one, switches to FIGHT and raises a target event; a troop with a target, or one finding none, changes nothing; no other troop and no tower changes |
| Combat.TowerAcquireSpec | apps/server/src/modules/game/game.simulation.ts:299-305 | a tower without a target takes the nearest opposing troop in range and raises no event; a tower with a target keeps it; only that tower's target can change |
| Combat.TroopsPassEvolves | apps/server/src/modules/game/game.simulation.ts:273-296 | after any number of troop turns, no entity is created, removed, moved or healed, a held target is kept, and events are only appended |
| Combat.TowersPassEvolves | apps/server/src/modules/game/game.simulation.ts:298-313 | the same holds after any number of tower turns |
| Combat.CombatEvolves | apps/server/src/modules/game/game.simulation.ts:272-314 | combat creates, removes and moves nothing and heals no one; only health, target and troop status change; a held target is never dropped; the phase's events follow the earlier ones |
| Combat.LockedTroopIgnoresRange | apps/server/src/modules/game/game.simulation.ts:289-294 | a troop with a locked target hits it on its cadence wherever the target now stands, even at health 0 or below |
| Combat.LockedTowerIgnoresRange | apps/server/src/modules/game/game.simulation.ts:306-311 | a tower with a locked target hits it on its cadence wherever the target now stands |
| Combat.TroopTurnOnlyOnCadence | apps/server/src/modules/game/game.simulation.ts:289-294 | off its own cadence a troop's turn is its target acquisition alone and changes no health, whichever other attackers fire on that tick |
| Combat.TowerTurnOnlyOnCadence | apps/server/src/modules/game/game.simulation.ts:306-311 | off its own cadence a tower's turn is its target acquisition alone and changes no health, whichever other attackers fire on that tick |
| Combat.CombatOffCadence | apps/server/src/modules/game/game.simulation.ts:289-313 | on a tick that is off every attacker's cadence, combat changes no health |
| Economy.RegenerateElixir | apps/server/src/modules/game/game.simulation.ts:415-447 | nothing changes before 21 ticks have passed; then each side below 10 gains exactly 1 and the regeneration tick is reset either way; pools within [0, 10] stay there |
| Economy.ElixirEventsReportGains | apps/server/src/modules/game/game.simulation.ts:421-443 | an elixir event is raised for a side exactly when that side's pool grew, and the step raises no other event |
| Economy.RegenTimesSaturates | apps/server/src/modules/game/game.simulation.ts:421-434 | k regeneration steps take a pool e in [0, 10] to min(e + k, 10) |
| Cleanup.Survivors | apps/server/src/modules/game/game.simulation.ts:452-466 | only troops above 0 health survive cleanup |
| Cleanup.SurvivorsMembership | apps/server/src/modules/game/game.simulation.ts:452-466 | a troop survives cleanup exactly when it was registered and is above 0 health |
| Cleanup.DeadIdsMembership | apps/server/src/modules/game/game.simulation.ts:452-466 | an id is removed exactly when a registered troop carrying it is at 0 health or below |
| Cleanup.RemoveDeadSpec | apps/server/src/modules/game/game.simulation.ts:452-466 | after cleanup, no troop at or below 0 health remains and every live troop is still there; no troop targets a removed id; each troop that did has lost the target and walks, and the others are unchanged |
| Cleanup.WalkedIsPartial | apps/server/src/modules/game/game.simulation.ts:452-466 | after visiting i troops, the deleting walk holds the survivors among them, then the unvisited troops, with targets on the removed ids cleared; it stands at the number of survivors so far |
| Cleanup.WalkEndsInRemoveDead | apps/server/src/modules/game/game.simulation.ts:452-466 | the walk that deletes the dead troop it stands on and steps past live ones ends in exactly the cleaned registry |
| Cleanup.RemoveDeadKeepsIdsIncreasing | apps/server/src/modules/game/game.simulation.ts:452-466 | cleanup keeps registry order, so increasing ids stay increasing |
| Spells.Scorch | apps/server/src/modules/game/game.simulation.ts:602 | the spell result is max(0, health - damage): never negative, and 0 when the damage reaches the health |
| Spells.SpellOnTroops | apps/server/src/modules/game/game.simulation.ts:598-604 | each troop within the radius, of either side, gets max(0, health - damage); every troop outside it is untouched; nothing but health changes |
| Spells.SpellOnTowers | apps/server/src/modules/game/game.simulation.ts:606-612 | each tower within the radius, of either side, gets max(0, health - damage); every tower outside it is untouched; nothing but health changes |
| Spells.SpellRaisesNegativeTowerToZero | apps/server/src/modules/game/game.simulation.ts:606-612 | a tower already below 0 that the spell reaches is raised to 0 |
| Spells.SpellNeverHealsTheLiving | apps/server/src/modules/game/game.simulation.ts:598-604 | a troop of non-negative health ends between 0 and its former health |
| Spells.FireballReach | packages/shared/src/constants.ts:118-135 | FIREBALL reaches a cell at distance sqrt 5 and not one at distance 3; ARROWS reaches distance 4 |
| Spells.SpellIgnoresOwner | apps/server/src/modules/game/game.simulation.ts:598-604 | a spell treats a troop the same whichever side owns it |
| Victory.FindKing | apps/server/src/modules/game/game.simulation.ts:621-622 | the search returns the first King of the side, and nothing exactly when the side has none |
| Victory.CheckVictory | apps/server/src/modules/game/game.simulation.ts:620-633 | the opponent wins exactly when the player's King is missing or at or below 0, even if both are down; the player wins exactly when only the opponent's King is down; otherwise there is no winner; a winner comes with the reason "King Tower destroyed" |
| Victory.KingDownMeansNoStandingKing | apps/server/src/modules/game/game.simulation.ts:620-633 | with one King per side, a side's King is down exactly when none of its King towers is above 0 health |
| Match.LayoutHasOneKingEach | apps/server/src/modules/game/game.simulation.ts:63-141 | the tower layout every match keeps has exactly one King per side, so the King search decides on the only King |
| Victory.WinnerFacesFallenKing | apps/server/src/modules/game/game.simulation.ts:620-633 | any winner's opposing King is down |
| Match.InitialTowers | apps/server/src/modules/game/game.simulation.ts:63-141 | six towers with ids 0 to 5, the player's first; each at full health, with its kind's TOWER_STATS, no target and on the grid; a King at indices 2 and 5 |
| Match.InitialLayoutMirror | apps/server/src/modules/game/game.simulation.ts:63-141 | the opponent's Queens stand on the mirror images of the player's Queens; the opponent's King is only y-flipped, not mirrored |
| Match.InitialState | apps/server/src/modules/game/game.simulation.ts:52-61 | a new match has no troops, both pools at 10, and tick and regeneration tick at 0 |
| Match.InitialStateWellFormed | apps/server/src/modules/game/game.simulation.ts:52-61 | the initial state satisfies the match invariant |
| Match.TickPreservesWellFormed | apps/server/src/modules/game/game.simulation.ts:185-220 | every tick keeps the six towers in place with their stats, adds no troop, keeps troop ids issued and increasing, and keeps both pools within [0, 10] |
| Match.TickKeepsTowerLayout | apps/server/src/modules/game/game.simulation.ts:185-220 | a tick keeps the six towers in their places, with their ids, kinds, owners and stats |
| Match.TickKeepsTroopIds | apps/server/src/modules/game/game.simulation.ts:185-220 | a tick keeps every troop id issued by the counter and increasing along the registry |
| Match.TickKeepsPools | apps/server/src/modules/game/game.simulation.ts:185-220 | a tick keeps both pools within [0, 10] and the regeneration tick at or before the tick |
| Match.TickLeavesOnlyTheLiving | apps/server/src/modules/game/game.simulation.ts:185-202 | after a tick every registered troop is above 0 health |
| Match.TowerTargetsAreNeverCleared | apps/server/src/modules/game/game.simulation.ts:298-313 | a tower's target survives every tick, even when its troop has been removed |
| Snapshots.ProjectTroop | apps/server/src/modules/game/game.simulation.ts:478-487 | a troop's view carries its id, card type, position, health, maximum health, status, owner and target |
| Snapshots.Snapshot | apps/server/src/modules/game/game.simulation.ts:471-501 | the snapshot reports the tick, both pools, the towers and the events as they are, and every troop in registry order |
| Snapshots.TickSnapshotShowsDecidingState | apps/server/src/modules/game/game.simulation.ts:199-205 | a tick's snapshot shows no troop at or below 0 health, and already shows the towers that victory is decided on |
| Deploy.DeployPosition | apps/server/src/modules/game/game.simulation.ts:527-530 | the opponent's cell is mirrored to (23 - x, 38 - y); the player's is taken as given |
| Deploy.PlaceCardOutcome | apps/server/src/modules/game/game.simulation.ts:506-555 | for an unknown card or a pool below the cost: no id and no change; otherwise only the owner's pool drops by exactly the cost and exactly one troop is appended, with catalog stats (including its entity type and target types), full health, WALK, no target, a fresh id, and its cell mirrored only for the opponent |
| Deploy.CastSpellOutcome | apps/server/src/modules/game/game.simulation.ts:578-615 | for an unknown spell: the error case; for a pool below the cost: no change; otherwise only the caster's pool drops by the cost, and troops and towers are scorched around the unmirrored point |
| Deploy.FullPoolAffordsEverything | packages/shared/src/constants.ts:82-135 | a full pool affords every card and every spell |
| Deploy.PlacementPreservesWellFormed | apps/server/src/modules/game/game.simulation.ts:506-555 | a placement keeps the match invariant, counting the issued id |
| Deploy.SpellPreservesWellFormed | apps/server/src/modules/game/game.simulation.ts:578-615 | a spell that does not throw keeps the match invariant |
| Deploy.RunPreservesWellFormed | apps/server/src/modules/game/game.simulation.ts:185-220 | any sequence of ticks, placements and spells keeps the match invariant |
| Deploy.MatchKeepsPoolsInBounds | apps/server/src/modules/game/game.simulation.ts:415-447 | from a new match, both pools stay within [0, 10] over any sequence of ticks, placements and spells |
| Simulation.GameSimulation.constructor | apps/server/src/modules/game/game.simulation.ts:47-61 | the object starts in the initial state with the loop stopped, and satisfies the invariant |
| Simulation.GameSimulation.Start | apps/server/src/modules/game/game.simulation.ts:146-169 | the loop is set going and the initial snapshot, with no events, is returned; the state is unchanged |
| Simulation.GameSimulation.Stop | apps/server/src/modules/game/game.simulation.ts:174-180 | the loop is stopped and nothing else changes, so a second call changes nothing |
| Simulation.GameSimulation.Tick | apps/server/src/modules/game/game.simulation.ts:185-220 | the new state is exactly one tick of the pipeline; the snapshot is taken before the victory check; a winner stops the loop; the invariant is kept |
| Simulation.GameSimulation.HandleMovement | apps/server/src/modules/game/game.simulation.ts:225-238 | the registry becomes exactly the movement phase of the tick; nothing else changes |
| Simulation.GameSimulation.HandleCombat | apps/server/src/modules/game/game.simulation.ts:272-314 | troops, towers and events become exactly the combat phase of the tick; nothing else changes |
| Simulation.GameSimulation.TroopsAttack | apps/server/src/modules/game/game.simulation.ts:273-296 | the loop over troops equals the troop pass over the whole registry |
| Simulation.GameSimulation.TroopTurnAt | apps/server/src/modules/game/game.simulation.ts:276-295 | one iteration of the troop loop completes the next turn of the troop pass |
| Simulation.GameSimulation.TroopAcquireAt | apps/server/src/modules/game/game.simulation.ts:276-287 | the acquisition half of an iteration leaves exactly the troop's acquisition step |
| Simulation.GameSimulation.TowersAttack | apps/server/src/modules/game/game.simulation.ts:298-313 | the loop over towers equals the tower pass over all six towers |
| Simulation.GameSimulation.TowerTurnAt | apps/server/src/modules/game/game.simulation.ts:300-312 | one iteration of the tower loop leaves exactly that tower's turn |
| Simulation.GameSimulation.TowerAcquireAt | apps/server/src/modules/game/game.simulation.ts:300-305 | the acquisition half of an iteration leaves exactly the tower's acquisition step |
| Simulation.GameSimulation.FindNearestTarget | apps/server/src/modules/game/game.simulation.ts:319-346 | the loop with its minDist accumulator returns exactly the nearest-target choice |
| Simulation.GameSimulation.ScanTowers | apps/server/src/modules/game/game.simulation.ts:334-343 | continuing the scan over the towers ends with the full scan's choice |
| Simulation.GameSimulation.FindNearestTowerTarget | apps/server/src/modules/game/game.simulation.ts:351-366 | the loop returns exactly the tower's nearest-troop choice |
| Simulation.GameSimulation.DealDamage | apps/server/src/modules/game/game.simulation.ts:371-410 | troops, towers and events become exactly the result of dealing damage to the id |
| Simulation.GameSimulation.HandleElixir | apps/server/src/modules/game/game.simulation.ts:415-447 | pools and regeneration tick become exactly one regeneration step, with its elixir events appended |
| Simulation.GameSimulation.RemoveDeadEntities | apps/server/src/modules/game/game.simulation.ts:452-466 | the walk that deletes while iterating leaves exactly the cleaned registry; towers are untouched |
| Simulation.GameSimulation.VisitTroop | apps/server/src/modules/game/game.simulation.ts:453-465 | one visit of the walk deletes the troop it stands on when dead, or steps over it |
| Simulation.GameSimulation.ClearReferences | apps/server/src/modules/game/game.simulation.ts:458-463 | every troop targeting the deleted id loses the target and walks; nothing else changes |
| Simulation.GameSimulation.PlaceCard | apps/server/src/modules/game/game.simulation.ts:506-555 | the new state and the returned id are exactly the placement outcome; the id counter advances only on success; the invariant is kept |
| Simulation.GameSimulation.CastSpell | apps/server/src/modules/game/game.simulation.ts:578-615 | an unknown spell fails with "Unknown spell: " and the name, changing nothing; otherwise the new state is exactly the spell outcome; the invariant is kept |
| Simulation.GameSimulation.ScorchTroops | apps/server/src/modules/game/game.simulation.ts:598-604 | the forEach over troops leaves exactly the scorched registry |
| Simulation.GameSimulation.ScorchTowers | apps/server/src/modules/game/game.simulation.ts:606-612 | the forEach over towers leaves exactly the scorched towers |
| Scenarios.DeployFromFullPool | apps/server/src/modules/game/game.simulation.ts:506-555 | a GIANT deployed from a full pool leaves 5 elixir and a walking troop with 2000 health, 126 damage, no target and the requested cell |
| Scenarios.OpponentDeploysMirrored | apps/server/src/modules/game/game.simulation.ts:527-530 | the opponent's ARCHER requested at (6, 30) lands at (17, 8), spending only the opponent's pool |
| Scenarios.RefusedDeployments | apps/server/src/modules/game/game.simulation.ts:506-520 | an unknown card and a card above the remaining pool are refused without spending |
| Scenarios.FireballOnQueen | apps/server/src/modules/game/game.simulation.ts:578-615 | a FIREBALL on the opponent's Queen at (3, 3) leaves it at 1075 and the King at 2400, charges 4, and an unknown spell then fails |
| Scenarios.FirstAttackOnCadence | apps/server/src/modules/game/game.simulation.ts:289-294 | a troop attacking every 1.0 s that holds a target from tick t leaves the arena untouched on every tick before the first multiple of 30 at or after t, and on that tick deals its damage to the target |
| Scenarios.TargetDiesThenTroopWalks | apps/server/src/modules/game/game.simulation.ts:452-466 | when a troop's target dies, cleanup removes it and the troop is left without a target, walking |

## Left out

- Timers: `setInterval`, the tick period and the try/catch wrapper around each tick are not modelled. `Tick` is one call of the loop, `Start` and `Stop` set and clear a flag, and a second `start` does not create a second loop.
- Clock: `Date.now()` enters as the `now` parameter of `Tick` and `Start`. The match duration sent at the end is not modelled.
- Transport: the update callback, `setServer`, `matchId` and the `MATCH_ENDED` broadcast are not modelled. `Tick` and `Start` return the snapshot and the victory result instead, even when no callback is set. The logger is not modelled.
- Ids: `uuidv4` is replaced by a counter. Ids are issued in increasing order and never repeat.
- Distances: `getDistance` is not modelled in floating point. Whole-cell distances compare exactly as squared integers.
- Elixir rate: `elixirPerTick` is computed and never used, so it is not modelled.
- Catalog lookup: inherited JavaScript object keys (such as `constructor`) in `CARD_STATS[cardType]` and `SPELL_STATS[cardType]` are not modelled. Only the listed card names are found.
- Aliasing: the snapshot copies tower values, whereas the source shares the live tower array, and `GetState` returns a value rather than the live state.
- Simulation.GameSimulation.RemoveDeadEntities: requires troop ids to increase along the registry. This is the invariant the id counter keeps, and it stands for the source's unique Map keys.
- Simulation.GameSimulation.Tick: runs whenever called, whether or not the loop is set. In the source only the interval calls it.
- Scenarios.FireballOnQueen: checks only that the unknown spell fails, not the message. `CastSpell` itself states the message.
- Other repository files: the gateway, service, module wiring, validation schemas, the client and its offline engine are not part of this model.
