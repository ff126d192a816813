/**
 * Spells (castSpell): instantaneous area damage around a point, applied to every troop and every
 * tower of either side within the radius, with the result floored at zero.
 */
module Spells {
  import opened Types
  import opened Constants
  import opened Targeting

  /** getDistance(at, center) <= radius, with the radius given in half grid units. */
  predicate WithinRadius(at: Position, center: Position, radiusHalves: nat)
  {
    4 * DistSq(at, center) <= radiusHalves * radiusHalves
  }

  /** Math.max(0, health - damage). */
  function Scorch(health: int, damage: nat): (r: int)
    ensures r >= 0
    ensures r <= health || health < 0
    ensures health - damage >= 0 ==> r == health - damage
    ensures health - damage < 0 ==> r == 0
  {
    if health - damage > 0 then health - damage else 0
  }

  /** Every registered troop after the spell: the ones within the radius are scorched, regardless of owner; order is kept. */
  function SpellOnTroops(ts: seq<Troop>, center: Position, spell: SpellStats): (r: seq<Troop>)
    ensures |r| == |ts|
    ensures forall k :: 0 <= k < |ts| ==> r[k] == ts[k].(health := r[k].health)
    ensures forall k :: 0 <= k < |ts| ==>
      r[k].health == if WithinRadius(ts[k].position, center, spell.radiusHalves) then Scorch(ts[k].health, spell.damage) else ts[k].health
  {
    seq(|ts|, k requires 0 <= k < |ts| =>
      if WithinRadius(ts[k].position, center, spell.radiusHalves)
      then ts[k].(health := Scorch(ts[k].health, spell.damage)) else ts[k])
  }

  /** Every tower after the spell, under the same rule. */
  function SpellOnTowers(ts: seq<Tower>, center: Position, spell: SpellStats): (r: seq<Tower>)
    ensures |r| == |ts|
    ensures forall k :: 0 <= k < |ts| ==> r[k] == ts[k].(health := r[k].health)
    ensures forall k :: 0 <= k < |ts| ==>
      r[k].health == if WithinRadius(ts[k].position, center, spell.radiusHalves) then Scorch(ts[k].health, spell.damage) else ts[k].health
  {
    seq(|ts|, k requires 0 <= k < |ts| =>
      if WithinRadius(ts[k].position, center, spell.radiusHalves)
      then ts[k].(health := Scorch(ts[k].health, spell.damage)) else ts[k])
  }

  /**
   * Because of the floor at zero, a tower that combat had already driven below zero and that the
   * spell reaches is raised to zero: the spell heals it.
   */
  lemma SpellRaisesNegativeTowerToZero(ts: seq<Tower>, center: Position, spell: SpellStats, k: nat)
    requires k < |ts| && ts[k].health < 0 && WithinRadius(ts[k].position, center, spell.radiusHalves)
    ensures SpellOnTowers(ts, center, spell)[k].health == 0 > ts[k].health
  {
  }

  /** Nothing of non-negative health gains health from a spell, and everything in the radius ends at zero or above. */
  lemma SpellNeverHealsTheLiving(ts: seq<Troop>, center: Position, spell: SpellStats)
    ensures forall k :: 0 <= k < |ts| && ts[k].health >= 0 ==>
      0 <= SpellOnTroops(ts, center, spell)[k].health <= ts[k].health
  {
  }

  /** FIREBALL reaches a cell two columns and one row away (distance about 2.24 < 2.5), but not one three columns away. */
  lemma FireballReach()
    ensures WithinRadius(Position(2, 1), Position(0, 0), SpellStatsOf("FIREBALL").value.radiusHalves)
    ensures !WithinRadius(Position(3, 0), Position(0, 0), SpellStatsOf("FIREBALL").value.radiusHalves)
    ensures WithinRadius(Position(4, 0), Position(0, 0), SpellStatsOf("ARROWS").value.radiusHalves)
  {
  }

  /** A spell hits both sides alike: what happens to a troop does not depend on who owns it. */
  lemma SpellIgnoresOwner(t: Troop, o: Owner, center: Position, spell: SpellStats)
    ensures SpellOnTroops([t.(owner := o)], center, spell)[0] == SpellOnTroops([t], center, spell)[0].(owner := o)
  {
  }
}
