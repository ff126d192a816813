/**
 * The shared entity types of the battle simulation: grid positions, owners, troops, towers,
 * per-tick events and the snapshot broadcast to viewers (packages/shared/src/types.ts).
 */
module Types {
  import opened Wrappers

  /** A grid cell. Coordinates are unbounded integers: the simulation never clamps a position. */
  datatype Position = Position(x: int, y: int)

  /** The two sides of a match ('player' | 'opponent'). */
  datatype Owner = Player | Opponent

  datatype TroopStatus = Walk | Fight | Idle

  /** Movement class of a troop. */
  datatype Speed = Fast | Medium | Slow

  /** What a troop is ('GROUND' | 'AIR' | 'BUILDING'); carried, never consulted. */
  datatype EntityType = Ground | Air | Building

  /** What a troop may hit ('AIR' | 'GROUND' | 'BUILDINGS'); carried, never consulted. */
  datatype TargetType = TargetsAir | TargetsGround | TargetsBuildings

  datatype TowerType = King | Queen

  /**
   * A deployed troop. The source's string ids are fresh naturals here; `hitSpeedTenths` is the
   * attack period in tenths of a second (1.2 s is 12). `health` may go below zero.
   */
  datatype Troop = Troop(
    id: nat,
    cardType: string,
    cost: nat,
    position: Position,
    owner: Owner,
    health: int,
    maxHealth: int,
    status: TroopStatus,
    speed: Speed,
    range: nat,
    damage: nat,
    hitSpeedTenths: nat,
    targetId: Option<nat>,
    entityType: EntityType,
    targets: seq<TargetType>)

  /** One of the six towers; `kind` is the source's `type` field. */
  datatype Tower = Tower(
    id: nat,
    kind: TowerType,
    owner: Owner,
    position: Position,
    health: int,
    maxHealth: int,
    damage: nat,
    range: nat,
    hitSpeedTenths: nat,
    targetId: Option<nat>)

  /** The events a tick can report ('damage', 'die', 'elixir', 'target'); `tick` is the tick that raised it. */
  datatype GameEvent =
    | DamageEvent(tick: nat, entityId: nat, damage: int)
    | DieEvent(tick: nat, entityId: nat)
    | ElixirEvent(tick: nat, owner: Owner)
    | TargetEvent(tick: nat, entityId: nat, targetId: nat)

  /** The public projection of one troop in a snapshot. */
  datatype EntitySnapshot = EntitySnapshot(
    id: nat,
    cardType: string,
    pos: Position,
    hp: int,
    maxHp: int,
    status: TroopStatus,
    owner: Owner,
    targetId: Option<nat>)

  /** The full-state broadcast of one tick. */
  datatype GameSnapshot = GameSnapshot(
    tick: nat,
    timestamp: int,
    entities: seq<EntitySnapshot>,
    towers: seq<Tower>,
    playerElixir: int,
    opponentElixir: int,
    events: seq<GameEvent>)
}
