/**
 * The match state (GameState), the initial layout (createInitialState, createInitialTowers) and
 * one tick of the pipeline (tick) as a pure function of the state, with the invariant every tick keeps.
 */
module Match {
  import opened Wrappers
  import opened Types
  import opened Constants
  import opened Movement
  import opened Combat
  import opened Economy
  import opened Cleanup
  import opened Victory

  /** The troop registry in insertion order, the six towers, the two pools, the tick counter and the last regeneration tick. */
  datatype GameState = GameState(
    entities: seq<Troop>,
    towers: seq<Tower>,
    playerElixir: int,
    opponentElixir: int,
    tick: nat,
    lastElixirTick: int)

  /** Towers take the ids 0 to 5; troop ids are issued from here on. */
  const NUM_TOWERS: nat := 6

  /** createInitialTowers: the player's two Queens and King, then the opponent's, at full health and without a target. */
  function InitialTowers(): (r: seq<Tower>)
    ensures |r| == NUM_TOWERS
    ensures forall k :: 0 <= k < |r| ==> r[k].id == k && r[k].targetId.None? && r[k].health == r[k].maxHealth
    ensures forall k :: 0 <= k < |r| ==>
      var st := TowerStatsOf(r[k].kind);
      r[k].health == st.health && r[k].damage == st.damage && r[k].range == st.range && r[k].hitSpeedTenths == st.hitSpeedTenths
    ensures forall k :: 0 <= k < |r| ==> InGrid(r[k].position) && (r[k].owner == Player <==> k < 3)
    ensures forall k :: 0 <= k < |r| ==> (r[k].kind == King <==> k == 2 || k == 5)
  {
    [ Tower(0, Queen, Player, Position(3, 35), 1400, 1400, 50, 8, 8, None),
      Tower(1, Queen, Player, Position(20, 35), 1400, 1400, 50, 8, 8, None),
      Tower(2, King, Player, Position(11, 38), 2400, 2400, 50, 7, 10, None),
      Tower(3, Queen, Opponent, Position(3, 3), 1400, 1400, 50, 8, 8, None),
      Tower(4, Queen, Opponent, Position(20, 3), 1400, 1400, 50, 8, 8, None),
      Tower(5, King, Opponent, Position(11, 0), 2400, 2400, 50, 7, 10, None) ]
  }

  /**
   * The opponent's Queens stand on the mirror images of the player's Queens, but the opponent's
   * King does not: mirrorPosition flips both axes, and the player's King at (11, 38) mirrors to
   * (12, 0) whereas the opponent's King stands at (11, 0).
   */
  lemma InitialLayoutMirror()
    ensures var t := InitialTowers();
      && t[3].position == MirrorPosition(t[1].position.x, t[1].position.y)
      && t[4].position == MirrorPosition(t[0].position.x, t[0].position.y)
      && t[5].position != MirrorPosition(t[2].position.x, t[2].position.y)
      && t[5].position == Position(t[2].position.x, ROWS - 1 - t[2].position.y)
  {
  }

  /** createInitialState: no troops, both pools full, tick and regeneration tick at zero. */
  function InitialState(): (r: GameState)
    ensures r.entities == [] && r.towers == InitialTowers()
    ensures r.playerElixir == ELIXIR_MAX && r.opponentElixir == ELIXIR_MAX
    ensures r.tick == 0 && r.lastElixirTick == 0
  {
    GameState([], InitialTowers(), ELIXIR_MAX, ELIXIR_MAX, 0, 0)
  }

  /** The elixir pool of one side. */
  function ElixirOf(s: GameState, owner: Owner): int
  {
    if owner == Player then s.playerElixir else s.opponentElixir
  }

  /**
   * The invariant of a running match, given the next troop id to issue: the six towers keep their
   * ids, kinds, sides, places and stats (only health and target change); troop ids are issued ones,
   * strictly increasing along the registry; both pools lie within [0, ELIXIR_MAX].
   */
  ghost predicate WellFormed(s: GameState, nextId: nat)
  {
    && NUM_TOWERS <= nextId
    && TowerLayout(s.towers)
    && TroopIdsIssued(s.entities, nextId)
    && 0 <= s.playerElixir <= ELIXIR_MAX
    && 0 <= s.opponentElixir <= ELIXIR_MAX
    && 0 <= s.lastElixirTick <= s.tick
  }

  /** The six towers of the initial layout, of which only health and target may have changed. */
  ghost predicate TowerLayout(towers: seq<Tower>)
  {
    && |towers| == NUM_TOWERS
    && (forall k :: 0 <= k < NUM_TOWERS ==>
          towers[k] == InitialTowers()[k].(health := towers[k].health, targetId := towers[k].targetId))
  }

  /** Troop ids are issued ones (below nextId, above the tower ids), strictly increasing along the registry. */
  ghost predicate TroopIdsIssued(ts: seq<Troop>, nextId: nat)
  {
    && (forall k :: 0 <= k < |ts| ==> NUM_TOWERS <= ts[k].id < nextId)
    && IdsIncreasing(ts)
  }

  lemma InitialStateWellFormed()
    ensures WellFormed(InitialState(), NUM_TOWERS)
  {
  }

  /** The state after one tick and the events the tick raised. */
  datatype Frame = Frame(state: GameState, events: seq<GameEvent>)

  /**
   * tick, phases 1 to 4: increment the counter, move, fight, regenerate, remove the dead.
   * Events are reported in phase order.
   */
  function TickOutcome(s: GameState): Frame
  {
    var t := s.tick + 1;
    var moved := MovementPhase(s.entities, t);
    var fought := CombatPhase(Arena(moved, s.towers, []), t);
    var pools := Pools(s.playerElixir, s.opponentElixir, s.lastElixirTick);
    var regen := RegenerateElixir(pools, t);
    Frame(
      GameState(RemoveDead(fought.troops), fought.towers, regen.playerElixir, regen.opponentElixir, t, regen.lastElixirTick),
      fought.events + ElixirEvents(pools, t))
  }

  /** Troops keeping their ids position by position keep the id invariant. */
  lemma SameIdsKeepBounds(a: seq<Troop>, b: seq<Troop>, nextId: nat)
    requires |a| == |b| && forall k :: 0 <= k < |a| ==> b[k].id == a[k].id
    requires TroopIdsIssued(a, nextId)
    ensures TroopIdsIssued(b, nextId)
  {
  }

  /** Removing the dead keeps issued ids within bounds. */
  lemma RemoveDeadKeepsBounds(ts: seq<Troop>, nextId: nat)
    requires forall k :: 0 <= k < |ts| ==> NUM_TOWERS <= ts[k].id < nextId
    ensures forall k :: 0 <= k < |RemoveDead(ts)| ==> NUM_TOWERS <= RemoveDead(ts)[k].id < nextId
  {
    var s := Survivors(ts);
    SurvivorsMembership(ts);
    forall k | 0 <= k < |s| ensures NUM_TOWERS <= s[k].id < nextId {
      assert s[k] in ts;
    }
  }

  /** Combat keeps the tower layout. */
  lemma CombatKeepsTowerLayout(a: Arena, t: nat)
    requires TowerLayout(a.towers)
    ensures TowerLayout(CombatPhase(a, t).towers)
  {
    var b := CombatPhase(a, t);
    CombatEvolves(a, t);
    forall k | 0 <= k < NUM_TOWERS
      ensures b.towers[k] == InitialTowers()[k].(health := b.towers[k].health, targetId := b.towers[k].targetId)
    {
      assert TowerEvolves(a.towers[k], b.towers[k]);
    }
  }

  /** Combat keeps every troop's id in place. */
  lemma CombatKeepsTroopIds(a: Arena, t: nat, nextId: nat)
    requires TroopIdsIssued(a.troops, nextId)
    ensures TroopIdsIssued(CombatPhase(a, t).troops, nextId)
  {
    var fought := CombatPhase(a, t);
    CombatEvolves(a, t);
    assert forall k :: 0 <= k < |a.troops| ==> TroopEvolves(a.troops[k], fought.troops[k]);
    SameIdsKeepBounds(a.troops, fought.troops, nextId);
  }

  /** Movement, combat and cleanup keep the troop id invariant. */
  lemma PhasesKeepTroopIds(ts: seq<Troop>, towers: seq<Tower>, t: nat, nextId: nat)
    requires TroopIdsIssued(ts, nextId)
    ensures TroopIdsIssued(RemoveDead(CombatPhase(Arena(MovementPhase(ts, t), towers, []), t).troops), nextId)
  {
    var moved := MovementPhase(ts, t);
    var a := Arena(moved, towers, []);
    SameIdsKeepBounds(ts, moved, nextId);
    CombatKeepsTroopIds(a, t, nextId);
    RemoveDeadKeepsBounds(CombatPhase(a, t).troops, nextId);
    RemoveDeadKeepsIdsIncreasing(CombatPhase(a, t).troops);
  }

  lemma TickKeepsTowerLayout(s: GameState)
    requires TowerLayout(s.towers)
    ensures TowerLayout(TickOutcome(s).state.towers)
  {
    var t := s.tick + 1;
    CombatKeepsTowerLayout(Arena(MovementPhase(s.entities, t), s.towers, []), t);
  }

  lemma TickKeepsTroopIds(s: GameState, nextId: nat)
    requires TroopIdsIssued(s.entities, nextId)
    ensures TroopIdsIssued(TickOutcome(s).state.entities, nextId)
  {
    var t := s.tick + 1;
    var fought := CombatPhase(Arena(MovementPhase(s.entities, t), s.towers, []), t);
    PhasesKeepTroopIds(s.entities, s.towers, t, nextId);
    assert TickOutcome(s).state.entities == RemoveDead(fought.troops);
  }

  lemma TickKeepsPools(s: GameState)
    requires 0 <= s.playerElixir <= ELIXIR_MAX && 0 <= s.opponentElixir <= ELIXIR_MAX
    requires 0 <= s.lastElixirTick <= s.tick
    ensures var r := TickOutcome(s).state;
      0 <= r.playerElixir <= ELIXIR_MAX && 0 <= r.opponentElixir <= ELIXIR_MAX && 0 <= r.lastElixirTick <= r.tick
  {
  }

  /**
   * Every tick keeps the invariant: towers are never removed and keep their places and stats,
   * no troop appears, and both pools stay within [0, ELIXIR_MAX].
   */
  lemma TickPreservesWellFormed(s: GameState, nextId: nat)
    requires WellFormed(s, nextId)
    ensures WellFormed(TickOutcome(s).state, nextId)
  {
    TickKeepsTowerLayout(s);
    TickKeepsTroopIds(s, nextId);
    TickKeepsPools(s);
  }

  /** After a tick every registered troop is alive: the snapshot of a tick never shows a dead troop. */
  lemma TickLeavesOnlyTheLiving(s: GameState)
    ensures forall k :: 0 <= k < |TickOutcome(s).state.entities| ==> TickOutcome(s).state.entities[k].health > 0
  {
    var t := s.tick + 1;
    var fought := CombatPhase(Arena(MovementPhase(s.entities, t), s.towers, []), t);
    RemoveDeadSpec(fought.troops);
  }

  /** A tower's target, once set, survives the tick, even when the troop it names has been removed. */
  lemma TowerTargetsAreNeverCleared(s: GameState, j: nat)
    requires j < |s.towers| && s.towers[j].targetId.Some?
    ensures j < |TickOutcome(s).state.towers| && TickOutcome(s).state.towers[j].targetId == s.towers[j].targetId
  {
    var t := s.tick + 1;
    var a := Arena(MovementPhase(s.entities, t), s.towers, []);
    CombatEvolves(a, t);
    assert TowerEvolves(a.towers[j], CombatPhase(a, t).towers[j]);
  }

  /** The tower layout of every match has exactly one King per side, so the King search is exact. */
  lemma LayoutHasOneKingEach(towers: seq<Tower>)
    requires TowerLayout(towers)
    ensures OneKingEach(towers)
  {
  }
}
