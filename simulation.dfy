/**
 * GameSimulation: the authoritative server-side match. The object holds the match state in its
 * fields and every operation updates them in place, phase by phase, as the game loop does; each
 * method is proved to leave the fields exactly as the matching pure function of the other modules
 * says, and to keep the match invariant.
 */
module Simulation {
  import opened Wrappers
  import opened Types
  import opened Constants
  import opened Movement
  import opened Targeting
  import opened Combat
  import opened Economy
  import opened Cleanup
  import opened Spells
  import opened Victory
  import opened Match
  import opened Snapshots
  import opened Deploy

  class GameSimulation {
    /** The troop registry, in insertion order (the iteration order of the source's Map). */
    var entities: seq<Troop>
    var towers: seq<Tower>
    var playerElixir: int
    var opponentElixir: int
    var tick: nat
    var lastElixirTick: int
    /** The next id to issue, in place of a random uuid: ids never repeat. */
    var nextId: nat
    /** The game-loop interval is set. */
    var running: bool

    /** getState. */
    function GetState(): GameState
      reads this
    {
      GameState(entities, towers, playerElixir, opponentElixir, tick, lastElixirTick)
    }

    ghost predicate Valid()
      reads this
    {
      WellFormed(GetState(), nextId)
    }

    /** A new match: createInitialState, with the loop not yet started. */
    constructor()
      ensures Valid() && GetState() == InitialState() && nextId == NUM_TOWERS && !running
    {
      entities := [];
      towers := InitialTowers();
      playerElixir := ELIXIR_MAX;
      opponentElixir := ELIXIR_MAX;
      tick := 0;
      lastElixirTick := 0;
      nextId := NUM_TOWERS;
      running := false;
      InitialStateWellFormed();
    }

    /** start: sets the loop going and hands back the initial snapshot, with no events. */
    method Start(now: int) returns (snap: GameSnapshot)
      modifies this
      ensures running
      ensures GetState() == old(GetState()) && nextId == old(nextId)
      ensures snap == Snapshot(GetState(), now, [])
    {
      running := true;
      snap := Snapshot(GetState(), now, []);
    }

    /** stop: clears the loop if it is set; a second call finds nothing to clear. */
    method Stop()
      modifies this
      ensures !running
      ensures GetState() == old(GetState()) && nextId == old(nextId)
    {
      if running {
        running := false;
      }
    }

    /**
     * tick: one step of the game loop. The counter goes up, then movement, combat, elixir
     * regeneration and cleanup run in this order; the snapshot is taken, and only then is victory
     * checked, stopping the loop when there is a winner.
     */
    method Tick(now: int) returns (snap: GameSnapshot, result: VictoryResult)
      requires Valid()
      modifies this
      ensures Valid()
      ensures GetState() == TickOutcome(old(GetState())).state && nextId == old(nextId)
      ensures snap == Snapshot(GetState(), now, TickOutcome(old(GetState())).events)
      ensures result == CheckVictory(towers)
      ensures running == (old(running) && result.winner.None?)
    {
      ghost var s0 := GetState();
      tick := tick + 1;
      var events: seq<GameEvent> := [];
      HandleMovement();
      ghost var moved := entities;
      SameIdsKeepBounds(s0.entities, moved, nextId);
      events := HandleCombat(events);
      CombatKeepsTroopIds(Arena(moved, s0.towers, []), tick, nextId);
      events := HandleElixir(events);
      RemoveDeadEntities();
      assert GetState() == TickOutcome(s0).state;
      TickPreservesWellFormed(s0, nextId);
      snap := Snapshot(GetState(), now, events);
      result := CheckVictory(towers);
      if result.winner.Some? {
        Stop();
      }
    }

    /** handleMovement: every troop without a target moves on its cadence, in registry order. */
    method HandleMovement()
      modifies this
      ensures entities == MovementPhase(old(entities), tick)
      ensures towers == old(towers) && playerElixir == old(playerElixir) && opponentElixir == old(opponentElixir)
      ensures tick == old(tick) && lastElixirTick == old(lastElixirTick) && nextId == old(nextId) && running == old(running)
    {
      var i := 0;
      while i < |entities|
        invariant 0 <= i <= |entities| == |old(entities)|
        invariant forall k :: 0 <= k < i ==> entities[k] == MoveTroop(old(entities)[k], tick)
        invariant forall k :: i <= k < |entities| ==> entities[k] == old(entities)[k]
        invariant towers == old(towers) && playerElixir == old(playerElixir) && opponentElixir == old(opponentElixir)
        invariant tick == old(tick) && lastElixirTick == old(lastElixirTick) && nextId == old(nextId) && running == old(running)
      {
        var troop := entities[i];
        if troop.targetId.None? && IsTimeForMove(troop.speed, tick) {
          var newPos := CalculateNextPosition(troop.position, troop.owner);
          entities := entities[i := troop.(position := newPos, status := Walk)];
        }
        i := i + 1;
      }
    }

    /**
     * handleCombat: every troop in registry order acquires a target if it has none and attacks on
     * its cadence; then every tower does the same against troops. Events are appended to `events`.
     */
    method HandleCombat(events: seq<GameEvent>) returns (evs: seq<GameEvent>)
      modifies this
      ensures Arena(entities, towers, evs) == CombatPhase(Arena(old(entities), old(towers), events), tick)
      ensures playerElixir == old(playerElixir) && opponentElixir == old(opponentElixir)
      ensures tick == old(tick) && lastElixirTick == old(lastElixirTick) && nextId == old(nextId) && running == old(running)
    {
      evs := TroopsAttack(events);
      evs := TowersAttack(evs);
    }

    /** The troop half of handleCombat. */
    method TroopsAttack(events: seq<GameEvent>) returns (evs: seq<GameEvent>)
      modifies this
      ensures Arena(entities, towers, evs) == TroopsPass(Arena(old(entities), old(towers), events), |old(entities)|, tick)
      ensures playerElixir == old(playerElixir) && opponentElixir == old(opponentElixir)
      ensures tick == old(tick) && lastElixirTick == old(lastElixirTick) && nextId == old(nextId) && running == old(running)
    {
      ghost var a0 := Arena(entities, towers, events);
      evs := events;
      var n := |entities|;
      var i := 0;
      while i < n
        invariant 0 <= i <= n == |a0.troops|
        invariant Arena(entities, towers, evs) == TroopsPass(a0, i, tick)
        invariant playerElixir == old(playerElixir) && opponentElixir == old(opponentElixir)
        invariant tick == old(tick) && lastElixirTick == old(lastElixirTick) && nextId == old(nextId) && running == old(running)
      {
        evs := TroopTurnAt(a0, i, evs);
        i := i + 1;
      }
    }

    /**
     * One troop's turn of handleCombat: acquire a target if it has none, then attack on its cadence.
     * Run on the registry after the first `i` turns of the pass over `a0`, it completes turn `i`.
     */
    method TroopTurnAt(ghost a0: Arena, i: nat, events: seq<GameEvent>) returns (evs: seq<GameEvent>)
      requires i < |a0.troops| && Arena(entities, towers, events) == TroopsPass(a0, i, tick)
      modifies this
      ensures Arena(entities, towers, evs) == TroopsPass(a0, i + 1, tick)
      ensures playerElixir == old(playerElixir) && opponentElixir == old(opponentElixir)
      ensures tick == old(tick) && lastElixirTick == old(lastElixirTick) && nextId == old(nextId) && running == old(running)
    {
      TroopsPassNext(a0, i + 1, tick);
      evs := TroopAcquireAt(i, events);
      var troop := entities[i];
      if troop.targetId.Some? {
        var hitIntervalTicks := HitIntervalTicks(troop.hitSpeedTenths);
        if hitIntervalTicks != 0 && tick % hitIntervalTicks == 0 {
          evs := DealDamage(troop.id, troop.targetId.value, troop.damage, evs);
        }
      }
    }

    /** The acquisition half of a troop's turn. */
    method TroopAcquireAt(i: nat, events: seq<GameEvent>) returns (evs: seq<GameEvent>)
      requires i < |entities|
      modifies this
      ensures Arena(entities, towers, evs) == AcquireTarget(Arena(old(entities), old(towers), events), i, tick)
      ensures playerElixir == old(playerElixir) && opponentElixir == old(opponentElixir)
      ensures tick == old(tick) && lastElixirTick == old(lastElixirTick) && nextId == old(nextId) && running == old(running)
    {
      evs := events;
      var troop := entities[i];
      if troop.targetId.None? {
        var target := FindNearestTarget(troop);
        if target.Some? {
          entities := entities[i := troop.(targetId := target, status := Fight)];
          evs := evs + [TargetEvent(tick, troop.id, target.value)];
        }
      }
    }

    /** The tower half of handleCombat; a tower acquiring a target raises no event. */
    method TowersAttack(events: seq<GameEvent>) returns (evs: seq<GameEvent>)
      modifies this
      ensures Arena(entities, towers, evs) == TowersPass(Arena(old(entities), old(towers), events), |old(towers)|, tick)
      ensures playerElixir == old(playerElixir) && opponentElixir == old(opponentElixir)
      ensures tick == old(tick) && lastElixirTick == old(lastElixirTick) && nextId == old(nextId) && running == old(running)
    {
      ghost var a1 := Arena(entities, towers, events);
      evs := events;
      var j := 0;
      while j < |towers|
        invariant 0 <= j <= |towers| == |a1.towers|
        invariant Arena(entities, towers, evs) == TowersPass(a1, j, tick)
        invariant playerElixir == old(playerElixir) && opponentElixir == old(opponentElixir)
        invariant tick == old(tick) && lastElixirTick == old(lastElixirTick) && nextId == old(nextId) && running == old(running)
      {
        TowersPassNext(a1, j + 1, tick);
        evs := TowerTurnAt(j, evs);
        j := j + 1;
      }
    }

    /** One tower's turn of handleCombat. */
    method TowerTurnAt(j: nat, events: seq<GameEvent>) returns (evs: seq<GameEvent>)
      requires j < |towers|
      modifies this
      ensures Arena(entities, towers, evs) == TowerTurn(Arena(old(entities), old(towers), events), j, tick)
      ensures playerElixir == old(playerElixir) && opponentElixir == old(opponentElixir)
      ensures tick == old(tick) && lastElixirTick == old(lastElixirTick) && nextId == old(nextId) && running == old(running)
    {
      TowerAcquireAt(j, events);
      evs := events;
      var tower := towers[j];
      if tower.targetId.Some? {
        var hitIntervalTicks := HitIntervalTicks(tower.hitSpeedTenths);
        if hitIntervalTicks != 0 && tick % hitIntervalTicks == 0 {
          evs := DealDamage(tower.id, tower.targetId.value, tower.damage, evs);
        }
      }
    }

    /** The acquisition half of a tower's turn. */
    method TowerAcquireAt(j: nat, ghost events: seq<GameEvent>)
      requires j < |towers|
      modifies this
      ensures Arena(entities, towers, events) == TowerAcquire(Arena(old(entities), old(towers), events), j)
      ensures playerElixir == old(playerElixir) && opponentElixir == old(opponentElixir)
      ensures tick == old(tick) && lastElixirTick == old(lastElixirTick) && nextId == old(nextId) && running == old(running)
    {
      var tower := towers[j];
      if tower.targetId.None? {
        var target := FindNearestTowerTarget(tower);
        if target.Some? {
          towers := towers[j := tower.(targetId := target)];
        }
      }
    }

    /**
     * findNearestTarget: scans the troops, then the towers, holding the nearest opposing one in
     * range; a later candidate replaces the held one only when strictly nearer.
     */
    method FindNearestTarget(troop: Troop) returns (nearest: Option<nat>)
      ensures nearest == NearestTarget(entities, towers, troop)
    {
      ghost var cs := ScanOrder(entities, towers);
      ScanOrderAt(entities, towers);
      ghost var held: Option<nat> := None;
      nearest := None;
      var minDist := 0;  // stands for Infinity while nothing is held
      var i := 0;
      while i < |entities|
        invariant 0 <= i <= |entities|
        invariant held == Pick(cs[..i], troop.owner, troop.position, troop.range)
        invariant held.None? <==> nearest.None?
        invariant held.Some? ==> held.value < i && nearest == Some(cs[held.value].id)
                                 && minDist == DistSq(troop.position, cs[held.value].position)
      {
        PickStep(cs, i, troop.owner, troop.position, troop.range);
        var other := entities[i];
        if other.owner != troop.owner {
          var dist := DistSq(troop.position, other.position);
          if dist <= troop.range * troop.range && (nearest.None? || dist < minDist) {
            nearest := Some(other.id);
            minDist := dist;
            held := Some(i);
          }
        }
        i := i + 1;
      }
      nearest, held := ScanTowers(troop, cs, held, nearest, minDist);
      assert cs[..|cs|] == cs;
    }

    /** The tower half of findNearestTarget's scan, continuing from the troops' result held in `nearest` and `minDist`. */
    method ScanTowers(troop: Troop, ghost cs: seq<Candidate>, ghost held0: Option<nat>, nearest0: Option<nat>, minDist0: int)
      returns (nearest: Option<nat>, ghost held: Option<nat>)
      requires |cs| == |entities| + |towers|
      requires forall k :: 0 <= k < |towers| ==>
        cs[|entities| + k] == Candidate(towers[k].id, towers[k].owner, towers[k].position)
      requires held0 == Pick(cs[..|entities|], troop.owner, troop.position, troop.range)
      requires held0.None? <==> nearest0.None?
      requires held0.Some? ==> held0.value < |entities| && nearest0 == Some(cs[held0.value].id)
                               && minDist0 == DistSq(troop.position, cs[held0.value].position)
      ensures held == Pick(cs, troop.owner, troop.position, troop.range)
      ensures held.None? <==> nearest.None?
      ensures held.Some? ==> held.value < |cs| && nearest == Some(cs[held.value].id)
    {
      nearest, held := nearest0, held0;
      var minDist := minDist0;
      var n := |entities|;
      var j := 0;
      while j < |towers|
        invariant 0 <= j <= |towers| && n == |entities| + j
        invariant held == Pick(cs[..n], troop.owner, troop.position, troop.range)
        invariant held.None? <==> nearest.None?
        invariant held.Some? ==> held.value < n && nearest == Some(cs[held.value].id)
                                 && minDist == DistSq(troop.position, cs[held.value].position)
      {
        PickStep(cs, n, troop.owner, troop.position, troop.range);
        var tower := towers[j];
        if tower.owner != troop.owner {
          var dist := DistSq(troop.position, tower.position);
          if dist <= troop.range * troop.range && (nearest.None? || dist < minDist) {
            nearest := Some(tower.id);
            minDist := dist;
            held := Some(n);
          }
        }
        j := j + 1;
        n := n + 1;
      }
      assert cs[..n] == cs;
    }

    /** findNearestTowerTarget: the same scan over the troops only. */
    method FindNearestTowerTarget(tower: Tower) returns (nearest: Option<nat>)
      ensures nearest == NearestTowerTarget(entities, tower)
    {
      ghost var cs := TroopCandidates(entities);
      ghost var held: Option<nat> := None;
      nearest := None;
      var minDist := 0;  // stands for Infinity while nothing is held
      var i := 0;
      while i < |entities|
        invariant 0 <= i <= |entities|
        invariant held == Pick(cs[..i], tower.owner, tower.position, tower.range)
        invariant held.None? <==> nearest.None?
        invariant held.Some? ==> held.value < i && nearest == Some(entities[held.value].id)
                                 && minDist == DistSq(tower.position, cs[held.value].position)
      {
        PickStep(cs, i, tower.owner, tower.position, tower.range);
        var troop := entities[i];
        if troop.owner != tower.owner {
          var dist := DistSq(tower.position, troop.position);
          if dist <= tower.range * tower.range && (nearest.None? || dist < minDist) {
            nearest := Some(troop.id);
            minDist := dist;
            held := Some(i);
          }
        }
        i := i + 1;
      }
      assert cs[..|entities|] == cs;
    }

    /**
     * dealDamage: the troop registered under targetId, or else the tower with that id, loses
     * `damage` health; a 'damage' and possibly a 'die' event are appended. The attacker plays no part.
     */
    method DealDamage(attackerId: nat, targetId: nat, damage: nat, events: seq<GameEvent>) returns (evs: seq<GameEvent>)
      modifies this
      ensures Arena(entities, towers, evs) == Combat.DealDamage(Arena(old(entities), old(towers), events), tick, targetId, damage)
      ensures playerElixir == old(playerElixir) && opponentElixir == old(opponentElixir)
      ensures tick == old(tick) && lastElixirTick == old(lastElixirTick) && nextId == old(nextId) && running == old(running)
    {
      evs := events;
      var ti := FindTroop(entities, targetId);
      if ti.Some? {
        var troop := entities[ti.value];
        entities := entities[ti.value := troop.(health := troop.health - damage)];
        evs := evs + [DamageEvent(tick, targetId, damage)];
        if entities[ti.value].health <= 0 {
          evs := evs + [DieEvent(tick, targetId)];
        }
        return;
      }
      var wi := FindTower(towers, targetId);
      if wi.Some? {
        var tower := towers[wi.value];
        towers := towers[wi.value := tower.(health := tower.health - damage)];
        evs := evs + [DamageEvent(tick, targetId, damage)];
        if towers[wi.value].health <= 0 {
          evs := evs + [DieEvent(tick, targetId)];
        }
      }
    }

    /** handleElixir: a regeneration step every 21 ticks, with an 'elixir' event per side that gained. */
    method HandleElixir(events: seq<GameEvent>) returns (evs: seq<GameEvent>)
      modifies this
      ensures Pools(playerElixir, opponentElixir, lastElixirTick)
              == RegenerateElixir(Pools(old(playerElixir), old(opponentElixir), old(lastElixirTick)), tick)
      ensures evs == events + ElixirEvents(Pools(old(playerElixir), old(opponentElixir), old(lastElixirTick)), tick)
      ensures entities == old(entities) && towers == old(towers)
      ensures tick == old(tick) && nextId == old(nextId) && running == old(running)
    {
      evs := events;
      var ticksSinceLastElixir := tick - lastElixirTick;
      if ticksSinceLastElixir >= ELIXIR_REGEN_TICKS {
        if playerElixir < ELIXIR_MAX {
          playerElixir := Min(playerElixir + 1, ELIXIR_MAX);
          evs := evs + [ElixirEvent(tick, Player)];
        }
        if opponentElixir < ELIXIR_MAX {
          opponentElixir := Min(opponentElixir + 1, ELIXIR_MAX);
          evs := evs + [ElixirEvent(tick, Opponent)];
        }
        lastElixirTick := tick;
      }
    }

    /**
     * removeDeadEntities: walks the registry; each troop at or below zero health is deleted where
     * the walk stands, and every troop left that targets it drops the target and walks.
     */
    method RemoveDeadEntities()
      requires IdsIncreasing(entities)
      modifies this
      ensures entities == RemoveDead(old(entities))
      ensures towers == old(towers) && playerElixir == old(playerElixir) && opponentElixir == old(opponentElixir)
      ensures tick == old(tick) && lastElixirTick == old(lastElixirTick) && nextId == old(nextId) && running == old(running)
    {
      ghost var orig := entities;
      ghost var i := 0;
      var pos := 0;
      while pos < |entities|
        invariant 0 <= i <= |orig| && pos == Kept(orig, i)
        invariant entities == Walked(orig, i)
        invariant towers == old(towers) && playerElixir == old(playerElixir) && opponentElixir == old(opponentElixir)
        invariant tick == old(tick) && lastElixirTick == old(lastElixirTick) && nextId == old(nextId) && running == old(running)
        decreases |orig| - i
      {
        pos := VisitTroop(orig, i, pos);
        i := i + 1;
      }
      WalkEndsInRemoveDead(orig);
    }

    /**
     * One step of the walk of removeDeadEntities, standing on position `pos` of the registry:
     * a dead troop is deleted (the walk then stands on its successor), a live one is stepped over.
     */
    method VisitTroop(ghost orig: seq<Troop>, ghost i: nat, pos: nat) returns (next: nat)
      requires i < |orig| && IdsIncreasing(orig)
      requires entities == Walked(orig, i) && pos == Kept(orig, i)
      modifies this
      ensures entities == Walked(orig, i + 1) && next == Kept(orig, i + 1)
      ensures towers == old(towers) && playerElixir == old(playerElixir) && opponentElixir == old(opponentElixir)
      ensures tick == old(tick) && lastElixirTick == old(lastElixirTick) && nextId == old(nextId) && running == old(running)
    {
      WalkedIsPartial(orig, i);
      PartialAt(orig, i);
      var entity := entities[pos];
      if entity.health <= 0 {
        PartialStepDead(orig, i);
        FindTroopFirst(entities, entity.id, pos);
        var at := FindTroop(entities, entity.id);
        entities := entities[..at.value] + entities[at.value + 1..];
        ClearReferences(entity.id);
        next := pos;
      } else {
        next := pos + 1;
      }
    }

    /** The inner loop of removeDeadEntities: every troop targeting `id` drops the target and walks. */
    method ClearReferences(id: nat)
      modifies this
      ensures entities == ClearTargets(old(entities), {id})
      ensures towers == old(towers) && playerElixir == old(playerElixir) && opponentElixir == old(opponentElixir)
      ensures tick == old(tick) && lastElixirTick == old(lastElixirTick) && nextId == old(nextId) && running == old(running)
    {
      var k := 0;
      while k < |entities|
        invariant 0 <= k <= |entities| == |old(entities)|
        invariant forall m :: 0 <= m < k ==> entities[m] == ClearTarget(old(entities)[m], {id})
        invariant forall m :: k <= m < |entities| ==> entities[m] == old(entities)[m]
        invariant towers == old(towers) && playerElixir == old(playerElixir) && opponentElixir == old(opponentElixir)
        invariant tick == old(tick) && lastElixirTick == old(lastElixirTick) && nextId == old(nextId) && running == old(running)
      {
        var other := entities[k];
        if other.targetId == Some(id) {
          entities := entities[k := other.(targetId := None, status := Walk)];
        }
        k := k + 1;
      }
    }

    /**
     * placeCard: all or nothing. An unknown card or a pool below the cost returns None and changes
     * nothing; otherwise the cost is deducted from the owner and one troop is added under a fresh id.
     */
    method PlaceCard(cardType: string, owner: Owner, position: Position) returns (id: Option<nat>)
      requires Valid()
      modifies this
      ensures Valid()
      ensures var r := PlaceCardOutcome(old(GetState()), old(nextId), cardType, owner, position);
        GetState() == r.state && id == r.id
      ensures nextId == if id.Some? then old(nextId) + 1 else old(nextId)
      ensures running == old(running)
    {
      PlacementPreservesWellFormed(GetState(), nextId, cardType, owner, position);
      var stats := CardStatsOf(cardType);
      if stats.None? {
        return None;
      }
      var st := stats.value;
      var elixir := if owner == Player then playerElixir else opponentElixir;
      if elixir < st.cost {
        return None;
      }
      if owner == Player {
        playerElixir := playerElixir - st.cost;
      } else {
        opponentElixir := opponentElixir - st.cost;
      }
      var finalPos := if owner == Opponent then MirrorPosition(position.x, position.y) else position;
      var newId := nextId;
      nextId := nextId + 1;
      var troop := Troop(newId, cardType, st.cost, finalPos, owner, st.health, st.health, Walk,
                         st.speed, st.range, st.damage, st.hitSpeedTenths, None, st.entityType, st.targets);
      entities := entities + [troop];
      id := Some(newId);
    }

    /**
     * castSpell: an unknown spell fails with an error and changes nothing; a pool below the cost
     * changes nothing; otherwise the cost is deducted from the caster and everything within the
     * radius, of either side, is scorched.
     */
    method CastSpell(cardType: string, owner: Owner, position: Position) returns (outcome: Outcome<string>)
      requires Valid()
      modifies this
      ensures Valid()
      ensures outcome.Fail? <==> CastSpellOutcome(old(GetState()), cardType, owner, position).None?
      ensures outcome.Fail? ==> GetState() == old(GetState()) && outcome.error == "Unknown spell: " + cardType
      ensures outcome.Pass? ==> GetState() == CastSpellOutcome(old(GetState()), cardType, owner, position).value
      ensures nextId == old(nextId) && running == old(running)
    {
      var spell := SpellStatsOf(cardType);
      if spell.None? {
        return Fail("Unknown spell: " + cardType);
      }
      SpellPreservesWellFormed(GetState(), nextId, cardType, owner, position);
      var st := spell.value;
      outcome := Pass;
      var elixir := if owner == Player then playerElixir else opponentElixir;
      if elixir < st.cost {
        return;
      }
      if owner == Player {
        playerElixir := playerElixir - st.cost;
      } else {
        opponentElixir := opponentElixir - st.cost;
      }
      ScorchTroops(position, st);
      ScorchTowers(position, st);
    }

    /** The first forEach of castSpell: every troop within the radius is scorched. */
    method ScorchTroops(center: Position, st: SpellStats)
      modifies this
      ensures entities == SpellOnTroops(old(entities), center, st)
      ensures towers == old(towers) && playerElixir == old(playerElixir) && opponentElixir == old(opponentElixir)
      ensures tick == old(tick) && lastElixirTick == old(lastElixirTick) && nextId == old(nextId) && running == old(running)
    {
      var i := 0;
      while i < |entities|
        invariant 0 <= i <= |entities| == |old(entities)|
        invariant forall k :: 0 <= k < i ==> entities[k] == SpellOnTroops(old(entities), center, st)[k]
        invariant forall k :: i <= k < |entities| ==> entities[k] == old(entities)[k]
        invariant towers == old(towers) && playerElixir == old(playerElixir) && opponentElixir == old(opponentElixir)
        invariant tick == old(tick) && lastElixirTick == old(lastElixirTick) && nextId == old(nextId) && running == old(running)
      {
        var entity := entities[i];
        if WithinRadius(entity.position, center, st.radiusHalves) {
          entities := entities[i := entity.(health := Scorch(entity.health, st.damage))];
        }
        i := i + 1;
      }
    }

    /** The second forEach of castSpell: every tower within the radius is scorched. */
    method ScorchTowers(center: Position, st: SpellStats)
      modifies this
      ensures towers == SpellOnTowers(old(towers), center, st)
      ensures entities == old(entities) && playerElixir == old(playerElixir) && opponentElixir == old(opponentElixir)
      ensures tick == old(tick) && lastElixirTick == old(lastElixirTick) && nextId == old(nextId) && running == old(running)
    {
      var j := 0;
      while j < |towers|
        invariant 0 <= j <= |towers| == |old(towers)|
        invariant forall k :: 0 <= k < j ==> towers[k] == SpellOnTowers(old(towers), center, st)[k]
        invariant forall k :: j <= k < |towers| ==> towers[k] == old(towers)[k]
        invariant entities == old(entities) && playerElixir == old(playerElixir) && opponentElixir == old(opponentElixir)
        invariant tick == old(tick) && lastElixirTick == old(lastElixirTick) && nextId == old(nextId) && running == old(running)
      {
        var tower := towers[j];
        if WithinRadius(tower.position, center, st.radiusHalves) {
          towers := towers[j := tower.(health := Scorch(tower.health, st.damage))];
        }
        j := j + 1;
      }
    }
  }
}
