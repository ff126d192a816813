/**
 * Configuration and balance tables of the simulation, with the three one-line rules built on
 * them: mirroring, the main-path test and the movement cadence (packages/shared/src/constants.ts).
 */
module Constants {
  import opened Wrappers
  import opened Types

  // GAME_CONFIG
  const FPS: nat := 30
  const TICK_MS: nat := 33
  const ELIXIR_MAX: int := 10

  // GRID
  const COLUMNS: int := 24
  const ROWS: int := 39
  const LEFT_PATH_X: int := 6
  const RIGHT_PATH_X: int := 17
  const BRIDGE_Y: int := 6

  /** SPEED_CONFIG[speed].moveInterval, in ticks. Slow (15) is deliberately shorter than Medium (20). */
  function MoveInterval(speed: Speed): (r: nat)
    ensures r > 0
  {
    match speed
    case Fast => 10
    case Medium => 20
    case Slow => 15
  }

  /** The naming quirk kept from the original tables: a Slow troop moves more often than a Medium one. */
  lemma SlowMovesMoreOftenThanMedium()
    ensures MoveInterval(Slow) < MoveInterval(Medium)
    ensures IsTimeForMove(Slow, 15) && !IsTimeForMove(Medium, 15)
  {
  }

  /** The absolute cell that the opponent's own-orientation cell (x, y) denotes. */
  function MirrorPosition(x: int, y: int): Position
  {
    Position(COLUMNS - 1 - x, ROWS - 1 - y)
  }

  predicate InGrid(p: Position)
  {
    0 <= p.x < COLUMNS && 0 <= p.y < ROWS
  }

  /** Mirroring is an involution: mirroring twice gives back the original cell. */
  lemma MirrorIsInvolution(x: int, y: int)
    ensures var m := MirrorPosition(x, y); MirrorPosition(m.x, m.y) == Position(x, y)
    ensures MirrorPosition(x, y) == Position(23 - x, 38 - y)
  {
  }

  /** Mirroring maps the grid onto itself: a cell is on the grid exactly when its mirror is. */
  lemma MirrorPreservesGrid(p: Position)
    ensures InGrid(p) <==> InGrid(MirrorPosition(p.x, p.y))
  {
  }

  /** Mirroring exchanges the two lane columns. */
  lemma MirrorSwapsLanes(y: int)
    ensures MirrorPosition(LEFT_PATH_X, y).x == RIGHT_PATH_X
    ensures MirrorPosition(RIGHT_PATH_X, y).x == LEFT_PATH_X
  {
  }

  /** A cell on a lane column or on the bridge row. */
  predicate IsOnMainPath(x: int, y: int)
  {
    x == LEFT_PATH_X || x == RIGHT_PATH_X || y == BRIDGE_Y
  }

  /** A troop of class `speed` may move on frame `frame`. */
  predicate IsTimeForMove(speed: Speed, frame: nat)
  {
    frame % MoveInterval(speed) == 0
  }

  /**
   * Math.round(hitSpeed * FPS) for a period of `tenths` tenths of a second: the number of ticks
   * between two attacks. Math.round(v) is floor(v + 1/2).
   */
  function HitIntervalTicks(tenths: nat): nat
  {
    (2 * tenths * FPS + 10) / 20
  }

  /** Math.min on integers. */
  function Min(a: int, b: int): int
  {
    if a <= b then a else b
  }

  /** One entry of CARD_STATS. */
  datatype CardStats = CardStats(
    cost: nat,
    health: nat,
    damage: nat,
    hitSpeedTenths: nat,
    range: nat,
    speed: Speed,
    entityType: EntityType,
    targets: seq<TargetType>)

  /** CARD_STATS[cardType]: the closed troop catalog; every card is affordable from a full pool. */
  function CardStatsOf(cardType: string): (r: Option<CardStats>)
    ensures r.Some? <==> cardType == "ARCHER" || cardType == "GIANT" || cardType == "BARBARIAN"
    ensures r.Some? ==> 0 < r.value.cost <= ELIXIR_MAX && r.value.health > 0
    ensures r.Some? ==> HitIntervalTicks(r.value.hitSpeedTenths) > 0
  {
    if cardType == "ARCHER" then
      Some(CardStats(3, 125, 33, 12, 5, Medium, Ground, [TargetsAir, TargetsGround]))
    else if cardType == "GIANT" then
      Some(CardStats(5, 2000, 126, 15, 1, Slow, Ground, [TargetsBuildings]))
    else if cardType == "BARBARIAN" then
      Some(CardStats(5, 300, 75, 15, 1, Medium, Ground, [TargetsGround]))
    else
      None
  }

  /** One entry of SPELL_STATS; the radius is kept in half grid units (2.5 is 5). Every spell is 'INSTANT'. */
  datatype SpellStats = SpellStats(
    cost: nat,
    damage: nat,
    radiusHalves: nat,
    duration: nat,
    targets: seq<TargetType>)

  /** SPELL_STATS[cardType]: the closed spell catalog; every spell is affordable from a full pool. */
  function SpellStatsOf(cardType: string): (r: Option<SpellStats>)
    ensures r.Some? <==> cardType == "FIREBALL" || cardType == "ARROWS"
    ensures r.Some? ==> 0 < r.value.cost <= ELIXIR_MAX
  {
    if cardType == "FIREBALL" then
      Some(SpellStats(4, 325, 5, 0, [TargetsAir, TargetsGround]))
    else if cardType == "ARROWS" then
      Some(SpellStats(3, 115, 8, 0, [TargetsAir, TargetsGround]))
    else
      None
  }

  /** One entry of TOWER_STATS. */
  datatype TowerStats = TowerStats(health: nat, damage: nat, range: nat, hitSpeedTenths: nat)

  function TowerStatsOf(kind: TowerType): (r: TowerStats)
    ensures HitIntervalTicks(r.hitSpeedTenths) > 0 && r.health > 0
  {
    match kind
    case King => TowerStats(2400, 50, 7, 10)
    case Queen => TowerStats(1400, 50, 8, 8)
  }

  /** The attack intervals the cadence test divides by: 36, 45, 45 ticks for the troops, 30 and 24 for the towers. */
  lemma HitIntervalsOfCatalog()
    ensures HitIntervalTicks(CardStatsOf("ARCHER").value.hitSpeedTenths) == 36
    ensures HitIntervalTicks(CardStatsOf("GIANT").value.hitSpeedTenths) == 45
    ensures HitIntervalTicks(CardStatsOf("BARBARIAN").value.hitSpeedTenths) == 45
    ensures HitIntervalTicks(TowerStatsOf(King).hitSpeedTenths) == 30
    ensures HitIntervalTicks(TowerStatsOf(Queen).hitSpeedTenths) == 24
  {
  }
}
