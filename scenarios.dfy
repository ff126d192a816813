/** Concrete matches driven through GameSimulation, with the outcomes the rules promise. */
module Scenarios {
  import opened Wrappers
  import opened Types
  import opened Constants
  import opened Combat
  import opened Cleanup
  import opened Match
  import opened Deploy
  import opened Simulation

  /** A fresh match: the player deploys a GIANT (cost 5) from a full pool and is left with 5; the troop walks with catalog stats. */
  method DeployFromFullPool() returns (elixir: int, troop: Troop)
    ensures elixir == 5
    ensures troop.cardType == "GIANT" && troop.health == troop.maxHealth == 2000 && troop.damage == 126
    ensures troop.status == Walk && troop.targetId.None? && troop.position == Position(6, 30) && troop.id == NUM_TOWERS
  {
    var sim := new GameSimulation();
    var id := sim.PlaceCard("GIANT", Player, Position(6, 30));
    elixir := sim.playerElixir;
    troop := sim.entities[0];
  }

  /** The opponent's identical request lands on the mirrored cell and spends the opponent's pool only. */
  method OpponentDeploysMirrored() returns (troop: Troop, playerElixir: int, opponentElixir: int)
    ensures troop.position == Position(17, 8) && troop.owner == Opponent
    ensures playerElixir == 10 && opponentElixir == 7
  {
    var sim := new GameSimulation();
    var id := sim.PlaceCard("ARCHER", Opponent, Position(6, 30));
    troop := sim.entities[0];
    playerElixir, opponentElixir := sim.playerElixir, sim.opponentElixir;
  }

  /** An unknown card is refused and a pool below the cost refuses the card; nothing is spent. */
  method RefusedDeployments() returns (first: Option<nat>, third: Option<nat>, elixir: int, count: nat)
    ensures first.None? && third.None?
    ensures elixir == 0 && count == 2
  {
    var sim := new GameSimulation();
    first := sim.PlaceCard("WIZARD", Player, Position(6, 30));
    var a := sim.PlaceCard("GIANT", Player, Position(6, 30));
    var b := sim.PlaceCard("GIANT", Player, Position(17, 30));
    third := sim.PlaceCard("ARCHER", Player, Position(6, 30));
    elixir, count := sim.playerElixir, |sim.entities|;
  }

  /**
   * A FIREBALL on the opponent's left Queen (1400 health) leaves it at 1075; the other towers are
   * untouched, the caster pays 4; an unknown spell then fails with an error.
   */
  method FireballOnQueen() returns (queen: int, king: int, elixir: int, failed: Outcome<string>)
    ensures queen == 1075 && king == 2400 && elixir == 6
    ensures failed.Fail?
  {
    var sim := new GameSimulation();
    var ok := sim.CastSpell("FIREBALL", Player, Position(3, 3));
    queen, king, elixir := sim.towers[3].health, sim.towers[5].health, sim.playerElixir;
    failed := sim.CastSpell("RAGE", Player, Position(3, 3));
  }

  /**
   * Attack cadence: a troop attacking every second (30 ticks) that holds a target from tick t on
   * leaves the arena untouched on every tick before the first multiple of 30 at or after t, and on
   * that tick hits its target.
   */
  lemma FirstAttackOnCadence(a: Arena, i: nat, x: nat, t: nat)
    requires i < |a.troops| && a.troops[i].hitSpeedTenths == 10 && a.troops[i].targetId == Some(x)
    ensures var first := (t + 29) / 30 * 30;
      && t <= first
      && (forall u :: t <= u < first ==> TroopTurn(a, i, u) == a)
      && TroopTurn(a, i, first) == DealDamage(a, first, x, a.troops[i].damage)
  {
  }

  /** A troop whose target has died loses the target at cleanup and walks again, ready to reacquire. */
  lemma TargetDiesThenTroopWalks(attacker: Troop, victim: Troop)
    requires attacker.health > 0 && victim.health <= 0 && attacker.id != victim.id
    requires attacker.targetId == Some(victim.id) && attacker.status == Fight
    ensures RemoveDead([victim, attacker]) == [attacker.(targetId := None, status := Walk)]
  {
    assert [victim, attacker][..1] == [victim];
    assert [victim][..0] == [];
    assert DeadIds([victim]) == {victim.id};
    assert Survivors([victim, attacker]) == [attacker];
    assert DeadIds([victim, attacker]) == {victim.id};
  }
}
