/**
 * Deployment (placeCard, castSpell) as pure outcomes over the match state, and the invariant
 * every command of a match keeps, whatever the order of ticks, placements and spells.
 */
module Deploy {
  import opened Wrappers
  import opened Types
  import opened Constants
  import opened Spells
  import opened Cleanup
  import opened Match

  /** Where a card lands: the opponent's coordinates are mirrored, the player's taken as given. */
  function DeployPosition(owner: Owner, position: Position): (r: Position)
    ensures owner == Player ==> r == position
    ensures owner == Opponent ==> r == Position(COLUMNS - 1 - position.x, ROWS - 1 - position.y)
  {
    if owner == Opponent then MirrorPosition(position.x, position.y) else position
  }

  /** The troop placeCard creates: catalog stats, full health, walking, no target. */
  function SpawnedTroop(id: nat, cardType: string, st: CardStats, owner: Owner, position: Position): Troop
  {
    Troop(id, cardType, st.cost, DeployPosition(owner, position), owner, st.health, st.health, Walk,
          st.speed, st.range, st.damage, st.hitSpeedTenths, None, st.entityType, st.targets)
  }

  /** The state with `owner`'s pool lowered by `cost`. */
  function Spend(s: GameState, owner: Owner, cost: nat): (r: GameState)
    ensures ElixirOf(r, owner) == ElixirOf(s, owner) - cost
    ensures ElixirOf(r, Other(owner)) == ElixirOf(s, Other(owner))
    ensures r.entities == s.entities && r.towers == s.towers && r.tick == s.tick && r.lastElixirTick == s.lastElixirTick
  {
    if owner == Player then s.(playerElixir := s.playerElixir - cost)
    else s.(opponentElixir := s.opponentElixir - cost)
  }

  function Other(owner: Owner): Owner
  {
    if owner == Player then Opponent else Player
  }

  /** The state after placeCard and the id it returns. */
  datatype Placement = Placement(state: GameState, id: Option<nat>)

  /**
   * placeCard is all or nothing: an unknown card or a pool below the cost returns no id and
   * changes nothing; otherwise only the owner's pool drops by exactly the cost and exactly one
   * troop is appended, with the card's catalog stats, full health, status Walk, no target, and
   * its position mirrored only for the opponent.
   */
  function PlaceCardOutcome(s: GameState, nextId: nat, cardType: string, owner: Owner, position: Position): (r: Placement)
    ensures r.id.None? <==> CardStatsOf(cardType).None? || ElixirOf(s, owner) < CardStatsOf(cardType).value.cost
    ensures r.id.None? ==> r.state == s
    ensures r.id.Some? ==>
      var st := CardStatsOf(cardType).value;
      && r.id == Some(nextId)
      && ElixirOf(r.state, owner) == ElixirOf(s, owner) - st.cost
      && ElixirOf(r.state, Other(owner)) == ElixirOf(s, Other(owner))
      && r.state.towers == s.towers && r.state.tick == s.tick && r.state.lastElixirTick == s.lastElixirTick
      && |r.state.entities| == |s.entities| + 1
      && r.state.entities[..|s.entities|] == s.entities
      && var t := r.state.entities[|s.entities|];
        && t.id == nextId && t.cardType == cardType && t.owner == owner
        && t.cost == st.cost && t.health == t.maxHealth == st.health && t.damage == st.damage
        && t.range == st.range && t.speed == st.speed && t.hitSpeedTenths == st.hitSpeedTenths
        && t.status == Walk && t.targetId.None? && t.entityType == st.entityType && t.targets == st.targets
        && t.position == (if owner == Opponent then MirrorPosition(position.x, position.y) else position)
  {
    match CardStatsOf(cardType)
    case None => Placement(s, None)
    case Some(st) =>
      if ElixirOf(s, owner) < st.cost then Placement(s, None)
      else
        var spent := Spend(s, owner, st.cost);
        Placement(spent.(entities := s.entities + [SpawnedTroop(nextId, cardType, st, owner, position)]), Some(nextId))
  }

  /** A full pool affords every card and every spell. */
  lemma FullPoolAffordsEverything(s: GameState, owner: Owner, cardType: string)
    requires ElixirOf(s, owner) == ELIXIR_MAX
    ensures CardStatsOf(cardType).Some? ==> ElixirOf(s, owner) >= CardStatsOf(cardType).value.cost
    ensures SpellStatsOf(cardType).Some? ==> ElixirOf(s, owner) >= SpellStatsOf(cardType).value.cost
  {
  }

  /**
   * castSpell on the state: None stands for the error thrown on an unknown spell; a pool below
   * the cost leaves the state as it was; otherwise only the caster's pool drops by the cost and
   * every troop and tower of either side within the radius of the unmirrored point is scorched.
   */
  function CastSpellOutcome(s: GameState, cardType: string, owner: Owner, position: Position): (r: Option<GameState>)
    ensures r.None? <==> SpellStatsOf(cardType).None?
    ensures r.Some? && ElixirOf(s, owner) < SpellStatsOf(cardType).value.cost ==> r.value == s
    ensures r.Some? && ElixirOf(s, owner) >= SpellStatsOf(cardType).value.cost ==>
      var st := SpellStatsOf(cardType).value;
      && ElixirOf(r.value, owner) == ElixirOf(s, owner) - st.cost
      && ElixirOf(r.value, Other(owner)) == ElixirOf(s, Other(owner))
      && r.value.entities == SpellOnTroops(s.entities, position, st)
      && r.value.towers == SpellOnTowers(s.towers, position, st)
      && r.value.tick == s.tick && r.value.lastElixirTick == s.lastElixirTick
  {
    match SpellStatsOf(cardType)
    case None => None
    case Some(st) =>
      if ElixirOf(s, owner) < st.cost then Some(s)
      else
        var spent := Spend(s, owner, st.cost);
        Some(spent.(entities := SpellOnTroops(s.entities, position, st), towers := SpellOnTowers(s.towers, position, st)))
  }

  // ----- The invariant across commands -----

  lemma PlacementPreservesWellFormed(s: GameState, nextId: nat, cardType: string, owner: Owner, position: Position)
    requires WellFormed(s, nextId)
    ensures var r := PlaceCardOutcome(s, nextId, cardType, owner, position);
      WellFormed(r.state, if r.id.Some? then nextId + 1 else nextId)
  {
    var r := PlaceCardOutcome(s, nextId, cardType, owner, position);
    if r.id.Some? {
      var es := r.state.entities;
      assert forall k :: 0 <= k < |s.entities| ==> es[k] == s.entities[k];
      assert es[|s.entities|].id == nextId;
      assert IdsIncreasing(es);
    }
  }

  lemma SpellPreservesWellFormed(s: GameState, nextId: nat, cardType: string, owner: Owner, position: Position)
    requires WellFormed(s, nextId) && CastSpellOutcome(s, cardType, owner, position).Some?
    ensures WellFormed(CastSpellOutcome(s, cardType, owner, position).value, nextId)
  {
    var r := CastSpellOutcome(s, cardType, owner, position).value;
    if ElixirOf(s, owner) >= SpellStatsOf(cardType).value.cost {
      assert forall k :: 0 <= k < |s.entities| ==> r.entities[k].id == s.entities[k].id;
      forall k | 0 <= k < NUM_TOWERS
        ensures r.towers[k] == InitialTowers()[k].(health := r.towers[k].health, targetId := r.towers[k].targetId)
      {
        assert r.towers[k] == s.towers[k].(health := r.towers[k].health);
      }
    }
  }

  /** What a match is driven by: ticks of the loop and the two deployment calls. */
  datatype Command =
    | TickCommand
    | PlaceCommand(cardType: string, owner: Owner, position: Position)
    | CastCommand(cardType: string, owner: Owner, position: Position)

  /** The state and next id after one command; a spell that throws leaves the state as it was. */
  function Step(s: GameState, nextId: nat, c: Command): (GameState, nat)
  {
    match c
    case TickCommand => (TickOutcome(s).state, nextId)
    case PlaceCommand(ct, o, p) =>
      var r := PlaceCardOutcome(s, nextId, ct, o, p);
      (r.state, if r.id.Some? then nextId + 1 else nextId)
    case CastCommand(ct, o, p) =>
      match CastSpellOutcome(s, ct, o, p)
      case None => (s, nextId)
      case Some(s') => (s', nextId)
  }

  function Run(s: GameState, nextId: nat, cs: seq<Command>): (GameState, nat)
    decreases |cs|
  {
    if cs == [] then (s, nextId)
    else
      var (s', n') := Step(s, nextId, cs[0]);
      Run(s', n', cs[1..])
  }

  lemma StepPreservesWellFormed(s: GameState, nextId: nat, c: Command)
    requires WellFormed(s, nextId)
    ensures WellFormed(Step(s, nextId, c).0, Step(s, nextId, c).1)
  {
    match c
    case TickCommand => TickPreservesWellFormed(s, nextId);
    case PlaceCommand(ct, o, p) => PlacementPreservesWellFormed(s, nextId, ct, o, p);
    case CastCommand(ct, o, p) =>
      if CastSpellOutcome(s, ct, o, p).Some? {
        SpellPreservesWellFormed(s, nextId, ct, o, p);
      }
  }

  /**
   * Over any sequence of ticks, placements and spells, both pools stay within [0, ELIXIR_MAX],
   * the six towers stay in place and troop ids stay distinct and issued.
   */
  lemma {:induction false} RunPreservesWellFormed(s: GameState, nextId: nat, cs: seq<Command>)
    requires WellFormed(s, nextId)
    ensures WellFormed(Run(s, nextId, cs).0, Run(s, nextId, cs).1)
    decreases |cs|
  {
    if cs != [] {
      var (s', n') := Step(s, nextId, cs[0]);
      StepPreservesWellFormed(s, nextId, cs[0]);
      RunPreservesWellFormed(s', n', cs[1..]);
    }
  }

  lemma MatchKeepsPoolsInBounds(cs: seq<Command>)
    ensures var s := Run(InitialState(), NUM_TOWERS, cs).0;
      0 <= s.playerElixir <= ELIXIR_MAX && 0 <= s.opponentElixir <= ELIXIR_MAX
  {
    InitialStateWellFormed();
    RunPreservesWellFormed(InitialState(), NUM_TOWERS, cs);
  }
}
