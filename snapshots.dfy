/** The snapshot projection of emitGameUpdate: what viewers receive of the state after each tick. */
module Snapshots {
  import opened Types
  import opened Match
  import opened Victory

  /** The public view of one troop. */
  function ProjectTroop(t: Troop): (r: EntitySnapshot)
    ensures r.id == t.id && r.hp == t.health && r.pos == t.position && r.owner == t.owner && r.targetId == t.targetId
    ensures r.cardType == t.cardType && r.maxHp == t.maxHealth && r.status == t.status
  {
    EntitySnapshot(t.id, t.cardType, t.position, t.health, t.maxHealth, t.status, t.owner, t.targetId)
  }

  /**
   * The broadcast of a state: the tick, the caller's clock reading, every troop in registry order,
   * the towers as they are, both pools and the tick's events.
   */
  function Snapshot(s: GameState, now: int, events: seq<GameEvent>): (r: GameSnapshot)
    ensures r.tick == s.tick && r.timestamp == now && r.events == events
    ensures r.towers == s.towers && r.playerElixir == s.playerElixir && r.opponentElixir == s.opponentElixir
    ensures |r.entities| == |s.entities|
    ensures forall k :: 0 <= k < |s.entities| ==> r.entities[k] == ProjectTroop(s.entities[k])
  {
    GameSnapshot(s.tick, now, seq(|s.entities|, k requires 0 <= k < |s.entities| => ProjectTroop(s.entities[k])),
                 s.towers, s.playerElixir, s.opponentElixir, events)
  }

  /**
   * The snapshot is built after cleanup and before the victory check: it never shows a troop at
   * or below zero health, and it already shows the towers the victory is decided on.
   */
  lemma TickSnapshotShowsDecidingState(s: GameState, now: int)
    ensures var f := TickOutcome(s); var snap := Snapshot(f.state, now, f.events);
      && (forall k :: 0 <= k < |snap.entities| ==> snap.entities[k].hp > 0)
      && CheckVictory(snap.towers) == CheckVictory(f.state.towers)
      && snap.events == f.events
  {
    TickLeavesOnlyTheLiving(s);
  }
}
