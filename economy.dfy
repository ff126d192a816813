/** Elixir Economy: the regeneration step of handleElixir and its laws. */
module Economy {
  import opened Types
  import opened Constants

  /** Ticks that must pass between two regeneration steps. */
  const ELIXIR_REGEN_TICKS: nat := 21

  /** The two pools and the tick of the last regeneration step. */
  datatype Pools = Pools(playerElixir: int, opponentElixir: int, lastElixirTick: int)

  /** One side's pool after a regeneration step: one more, unless already at the cap. */
  function Regen(e: int): (r: int)
    ensures e < ELIXIR_MAX ==> r == e + 1
    ensures e >= ELIXIR_MAX ==> r == e
  {
    if e < ELIXIR_MAX then Min(e + 1, ELIXIR_MAX) else e
  }

  /** A regeneration step is due on `tick`. */
  predicate RegenDue(p: Pools, tick: nat)
  {
    tick - p.lastElixirTick >= ELIXIR_REGEN_TICKS
  }

  /**
   * handleElixir on the pools: when a step is due, each side below the cap gains one and the step
   * tick is reset (whether or not anything was gained); pools within [0, ELIXIR_MAX] stay there.
   */
  function RegenerateElixir(p: Pools, tick: nat): (r: Pools)
    ensures !RegenDue(p, tick) ==> r == p
    ensures RegenDue(p, tick) ==> r.lastElixirTick == tick
    ensures 0 <= p.playerElixir <= ELIXIR_MAX ==> p.playerElixir <= r.playerElixir <= ELIXIR_MAX
    ensures 0 <= p.opponentElixir <= ELIXIR_MAX ==> p.opponentElixir <= r.opponentElixir <= ELIXIR_MAX
    ensures r.playerElixir - p.playerElixir == (if RegenDue(p, tick) && p.playerElixir < ELIXIR_MAX then 1 else 0)
    ensures r.opponentElixir - p.opponentElixir == (if RegenDue(p, tick) && p.opponentElixir < ELIXIR_MAX then 1 else 0)
  {
    if RegenDue(p, tick) then Pools(Regen(p.playerElixir), Regen(p.opponentElixir), tick)
    else p
  }

  /** The 'elixir' events of a regeneration step: one per side that gained, the player's first. */
  function ElixirEvents(p: Pools, tick: nat): seq<GameEvent>
  {
    if RegenDue(p, tick) then
      (if p.playerElixir < ELIXIR_MAX then [ElixirEvent(tick, Player)] else [])
      + (if p.opponentElixir < ELIXIR_MAX then [ElixirEvent(tick, Opponent)] else [])
    else []
  }

  /** An 'elixir' event is raised for a side exactly when that side's pool grew, and no other event is raised. */
  lemma ElixirEventsReportGains(p: Pools, tick: nat)
    ensures var r := RegenerateElixir(p, tick);
      && (ElixirEvent(tick, Player) in ElixirEvents(p, tick) <==> r.playerElixir > p.playerElixir)
      && (ElixirEvent(tick, Opponent) in ElixirEvents(p, tick) <==> r.opponentElixir > p.opponentElixir)
      && (forall e :: e in ElixirEvents(p, tick) ==> e.ElixirEvent? && e.tick == tick)
  {
  }

  /** k regeneration steps from a pool within bounds leave it at min(e + k, ELIXIR_MAX). */
  function RegenTimes(e: int, k: nat): int
  {
    if k == 0 then e else Regen(RegenTimes(e, k - 1))
  }

  lemma {:induction false} RegenTimesSaturates(e: int, k: nat)
    requires 0 <= e <= ELIXIR_MAX
    ensures RegenTimes(e, k) == Min(e + k, ELIXIR_MAX)
  {
    if k > 0 {
      RegenTimesSaturates(e, k - 1);
    }
  }
}
