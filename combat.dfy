/**
 * Combat Resolver: the troop pass and the tower pass of handleCombat, and dealDamage, as pure
 * functions over an Arena (the troop registry, the tower list and the tick's event list).
 */
module Combat {
  import opened Wrappers
  import opened Types
  import opened Constants
  import opened Targeting

  /** The part of the match state combat reads and writes, with the events raised so far this tick. */
  datatype Arena = Arena(troops: seq<Troop>, towers: seq<Tower>, events: seq<GameEvent>)

  /** entities.get(id): the troop registered under `id` (the first one, should ids repeat). */
  function FindTroop(troops: seq<Troop>, id: nat): (r: Option<nat>)
    ensures r.Some? ==> r.value < |troops| && troops[r.value].id == id
    ensures r.Some? ==> forall k :: 0 <= k < r.value ==> troops[k].id != id
    ensures r.None? <==> forall k :: 0 <= k < |troops| ==> troops[k].id != id
    decreases |troops|
  {
    if troops == [] then None
    else if troops[0].id == id then Some(0)
    else match FindTroop(troops[1..], id)
      case None => None
      case Some(k) => Some(k + 1)
  }

  /** The lookup lands on the first troop carrying the id. */
  lemma FindTroopFirst(troops: seq<Troop>, id: nat, idx: nat)
    requires idx < |troops| && troops[idx].id == id
    requires forall k :: 0 <= k < idx ==> troops[k].id != id
    ensures FindTroop(troops, id) == Some(idx)
  {
  }

  /** towers.find(t => t.id === id). */
  function FindTower(towers: seq<Tower>, id: nat): (r: Option<nat>)
    ensures r.Some? ==> r.value < |towers| && towers[r.value].id == id
    ensures r.Some? ==> forall k :: 0 <= k < r.value ==> towers[k].id != id
    ensures r.None? <==> forall k :: 0 <= k < |towers| ==> towers[k].id != id
    decreases |towers|
  {
    if towers == [] then None
    else if towers[0].id == id then Some(0)
    else match FindTower(towers[1..], id)
      case None => None
      case Some(k) => Some(k + 1)
  }

  /** `tick % interval === 0` in JavaScript: a zero interval gives NaN, which never fires. */
  predicate Fires(tick: nat, interval: nat)
  {
    interval != 0 && tick % interval == 0
  }

  /** The entity a target id resolves to: a troop first (the registry lookup), else a tower. */
  datatype Victim = TroopVictim(index: nat) | TowerVictim(index: nat)

  function Locate(a: Arena, id: nat): (r: Option<Victim>)
    ensures r.Some? && r.value.TroopVictim? ==> r.value.index < |a.troops| && a.troops[r.value.index].id == id
    ensures r.Some? && r.value.TowerVictim? ==> r.value.index < |a.towers| && a.towers[r.value.index].id == id
    ensures r.None? <==>
      (forall k :: 0 <= k < |a.troops| ==> a.troops[k].id != id) &&
      (forall k :: 0 <= k < |a.towers| ==> a.towers[k].id != id)
  {
    match FindTroop(a.troops, id)
    case Some(i) => Some(TroopVictim(i))
    case None =>
      match FindTower(a.towers, id)
      case Some(j) => Some(TowerVictim(j))
      case None => None
  }

  /** Health of a located entity. */
  function HealthAt(a: Arena, v: Victim): int
    requires v.TroopVictim? ==> v.index < |a.troops|
    requires v.TowerVictim? ==> v.index < |a.towers|
  {
    match v
    case TroopVictim(i) => a.troops[i].health
    case TowerVictim(j) => a.towers[j].health
  }

  /** b is a with at most the health of entity v changed. */
  ghost predicate OnlyHealthOf(a: Arena, b: Arena, v: Victim)
  {
    && |b.troops| == |a.troops| && |b.towers| == |a.towers|
    && (forall k :: 0 <= k < |a.troops| ==>
          if v == TroopVictim(k) then b.troops[k] == a.troops[k].(health := b.troops[k].health)
          else b.troops[k] == a.troops[k])
    && (forall k :: 0 <= k < |a.towers| ==>
          if v == TowerVictim(k) then b.towers[k] == a.towers[k].(health := b.towers[k].health)
          else b.towers[k] == a.towers[k])
  }

  /** dealDamage: the id resolves to a troop first, else to a tower, else to nothing. */
  function DealDamage(a: Arena, tick: nat, targetId: nat, damage: nat): Arena
  {
    match Locate(a, targetId)
    case None => a
    case Some(TroopVictim(i)) =>
      var h := a.troops[i].health - damage;
      Arena(a.troops[i := a.troops[i].(health := h)], a.towers,
            a.events + [DamageEvent(tick, targetId, damage)] + (if h <= 0 then [DieEvent(tick, targetId)] else []))
    case Some(TowerVictim(j)) =>
      var h := a.towers[j].health - damage;
      Arena(a.troops, a.towers[j := a.towers[j].(health := h)],
            a.events + [DamageEvent(tick, targetId, damage)] + (if h <= 0 then [DieEvent(tick, targetId)] else []))
  }

  /**
   * The entity the id resolves to loses exactly `damage` health (no floor at zero), and a
   * 'damage' event is raised, followed by a 'die' event when its health is then at most zero.
   * An id that resolves to nothing (a removed troop's id kept by a tower) changes nothing.
   */
  lemma DealDamageSpec(a: Arena, tick: nat, targetId: nat, damage: nat)
    ensures var r := DealDamage(a, tick, targetId, damage);
      Locate(a, targetId).None? ==> r == a
    ensures var r := DealDamage(a, tick, targetId, damage);
      Locate(a, targetId).Some? ==>
        var v := Locate(a, targetId).value;
        && OnlyHealthOf(a, r, v)
        && HealthAt(r, v) == HealthAt(a, v) - damage
        && r.events == a.events + [DamageEvent(tick, targetId, damage)]
                       + (if HealthAt(r, v) <= 0 then [DieEvent(tick, targetId)] else [])
  {
  }

  /** The acquisition half of a troop's turn. */
  function AcquireTarget(a: Arena, i: nat, tick: nat): Arena
    requires i < |a.troops|
  {
    var t := a.troops[i];
    if t.targetId.Some? then a
    else
      match NearestTarget(a.troops, a.towers, t)
      case None => a
      case Some(x) =>
        Arena(a.troops[i := t.(targetId := Some(x), status := Fight)], a.towers,
              a.events + [TargetEvent(tick, t.id, x)])
  }

  /**
   * A troop without a target takes the nearest one in range, switches to Fight and raises a
   * 'target' event; a troop that already has one keeps it, whether or not it is still in range,
   * and so does nothing here; nothing but that troop's target and status changes.
   */
  lemma AcquireTargetSpec(a: Arena, i: nat, tick: nat)
    requires i < |a.troops|
    ensures var r := AcquireTarget(a, i, tick);
      && |r.troops| == |a.troops| && r.towers == a.towers
      && (forall k :: 0 <= k < |a.troops| && k != i ==> r.troops[k] == a.troops[k])
      && r.troops[i] == a.troops[i].(targetId := r.troops[i].targetId, status := r.troops[i].status)
      && (a.troops[i].targetId.Some? ==> r == a)
      && (a.troops[i].targetId.None? ==> r.troops[i].targetId == NearestTarget(a.troops, a.towers, a.troops[i]))
      && (r.troops[i].targetId.Some? && a.troops[i].targetId.None? ==>
            r.troops[i].status == Fight &&
            r.events == a.events + [TargetEvent(tick, a.troops[i].id, r.troops[i].targetId.value)])
      && (r.troops[i].targetId.None? ==> r == a)
  {
  }

  /** One troop's turn of the troop pass: acquire a target if it has none, then attack it on its cadence. */
  function TroopTurn(a: Arena, i: nat, tick: nat): (r: Arena)
    requires i < |a.troops|
    ensures |r.troops| == |a.troops| && |r.towers| == |a.towers|
  {
    var b := AcquireTarget(a, i, tick);
    var t := b.troops[i];
    if t.targetId.Some? && Fires(tick, HitIntervalTicks(t.hitSpeedTenths)) then
      DealDamage(b, tick, t.targetId.value, t.damage)
    else b
  }

  /** The troop pass over the first n troops of the registry, in registry order. */
  function TroopsPass(a: Arena, n: nat, tick: nat): (r: Arena)
    requires n <= |a.troops|
    ensures |r.troops| == |a.troops| && |r.towers| == |a.towers|
  {
    if n == 0 then a else TroopTurn(TroopsPass(a, n - 1, tick), n - 1, tick)
  }

  /** The acquisition half of a tower's turn: a tower without a target takes the nearest opposing troop in range, silently. */
  function TowerAcquire(a: Arena, j: nat): (r: Arena)
    requires j < |a.towers|
    ensures r.troops == a.troops && r.events == a.events && |r.towers| == |a.towers|
  {
    var tw := a.towers[j];
    if tw.targetId.Some? then a
    else match NearestTowerTarget(a.troops, tw)
      case None => a
      case Some(x) => a.(towers := a.towers[j := tw.(targetId := Some(x))])
  }

  /**
   * A tower without a target takes the nearest opposing troop in range; one that already has a
   * target keeps it; no event is raised and nothing but that tower's target changes.
   */
  lemma TowerAcquireSpec(a: Arena, j: nat)
    requires j < |a.towers|
    ensures var r := TowerAcquire(a, j);
      && r.troops == a.troops && r.events == a.events && |r.towers| == |a.towers|
      && (forall k :: 0 <= k < |a.towers| && k != j ==> r.towers[k] == a.towers[k])
      && r.towers[j] == a.towers[j].(targetId := r.towers[j].targetId)
      && (a.towers[j].targetId.Some? ==> r == a)
      && (a.towers[j].targetId.None? ==> r.towers[j].targetId == NearestTowerTarget(a.troops, a.towers[j]))
  {
  }

  /** The troop pass over n troops is the pass over n - 1 followed by the turn of troop n - 1. */
  lemma TroopsPassNext(a: Arena, n: nat, tick: nat)
    requires 0 < n <= |a.troops|
    ensures TroopsPass(a, n, tick) == TroopTurn(TroopsPass(a, n - 1, tick), n - 1, tick)
  {
  }

  /** One tower's turn: acquire the nearest opposing troop if it has no target, then attack on its cadence. */
  function TowerTurn(a: Arena, j: nat, tick: nat): (r: Arena)
    requires j < |a.towers|
    ensures |r.troops| == |a.troops| && |r.towers| == |a.towers|
  {
    var b := TowerAcquire(a, j);
    var tw := b.towers[j];
    if tw.targetId.Some? && Fires(tick, HitIntervalTicks(tw.hitSpeedTenths)) then
      DealDamage(b, tick, tw.targetId.value, tw.damage)
    else b
  }

  /** The tower pass over the first n towers, in list order. */
  function TowersPass(a: Arena, n: nat, tick: nat): (r: Arena)
    requires n <= |a.towers|
    ensures |r.troops| == |a.troops| && |r.towers| == |a.towers|
  {
    if n == 0 then a else TowerTurn(TowersPass(a, n - 1, tick), n - 1, tick)
  }

  /** The tower pass over n towers is the pass over n - 1 followed by the turn of tower n - 1. */
  lemma TowersPassNext(a: Arena, n: nat, tick: nat)
    requires 0 < n <= |a.towers|
    ensures TowersPass(a, n, tick) == TowerTurn(TowersPass(a, n - 1, tick), n - 1, tick)
  {
  }

  /** handleCombat: every troop's turn, then every tower's turn. */
  function CombatPhase(a: Arena, tick: nat): (r: Arena)
    ensures |r.troops| == |a.troops| && |r.towers| == |a.towers|
  {
    TowersPass(TroopsPass(a, |a.troops|, tick), |a.towers|, tick)
  }

  // ----- What combat can and cannot change -----

  /** u is t after combat: only health (never upwards), target and status may change, and a held target is kept. */
  ghost predicate TroopEvolves(t: Troop, u: Troop)
  {
    && u == t.(health := u.health, targetId := u.targetId, status := u.status)
    && u.health <= t.health
    && (t.targetId.Some? ==> u.targetId == t.targetId && u.status == t.status)
  }

  ghost predicate TowerEvolves(t: Tower, u: Tower)
  {
    && u == t.(health := u.health, targetId := u.targetId)
    && u.health <= t.health
    && (t.targetId.Some? ==> u.targetId == t.targetId)
  }

  /** us is ts after combat, troop by troop. */
  ghost predicate TroopsEvolve(ts: seq<Troop>, us: seq<Troop>)
  {
    |us| == |ts| && forall k {:trigger TroopEvolves(ts[k], us[k])} :: 0 <= k < |ts| ==> TroopEvolves(ts[k], us[k])
  }

  /** us is ts after combat, tower by tower. */
  ghost predicate TowersEvolve(ts: seq<Tower>, us: seq<Tower>)
  {
    |us| == |ts| && forall k {:trigger TowerEvolves(ts[k], us[k])} :: 0 <= k < |ts| ==> TowerEvolves(ts[k], us[k])
  }

  /** b is a after some troop and tower turns: every entity evolves in place and events are only appended. */
  ghost predicate Evolves(a: Arena, b: Arena)
  {
    TroopsEvolve(a.troops, b.troops) && TowersEvolve(a.towers, b.towers) && a.events <= b.events
  }

  lemma EvolvesTransitive(a: Arena, b: Arena, c: Arena)
    ensures Evolves(a, b) && Evolves(b, c) ==> Evolves(a, c)
  {
    if Evolves(a, b) && Evolves(b, c) {
      forall k | 0 <= k < |a.troops| ensures TroopEvolves(a.troops[k], c.troops[k]) {
        assert TroopEvolves(a.troops[k], b.troops[k]) && TroopEvolves(b.troops[k], c.troops[k]);
      }
      forall k | 0 <= k < |a.towers| ensures TowerEvolves(a.towers[k], c.towers[k]) {
        assert TowerEvolves(a.towers[k], b.towers[k]) && TowerEvolves(b.towers[k], c.towers[k]);
      }
    }
  }

  lemma EvolvesReflexive(a: Arena)
    ensures Evolves(a, a)
  {
    forall k | 0 <= k < |a.troops| ensures TroopEvolves(a.troops[k], a.troops[k]) {
      var t := a.troops[k];
      assert t.(health := t.health, targetId := t.targetId, status := t.status) == t;
    }
    forall k | 0 <= k < |a.towers| ensures TowerEvolves(a.towers[k], a.towers[k]) {
      var t := a.towers[k];
      assert t.(health := t.health, targetId := t.targetId) == t;
    }
  }

  lemma DealDamageEvolves(a: Arena, tick: nat, targetId: nat, damage: nat)
    ensures Evolves(a, DealDamage(a, tick, targetId, damage))
  {
    DealDamageSpec(a, tick, targetId, damage);
  }

  lemma TroopTurnEvolves(a: Arena, i: nat, tick: nat)
    requires i < |a.troops|
    ensures Evolves(a, TroopTurn(a, i, tick))
  {
    var b := AcquireTarget(a, i, tick);
    AcquireTargetSpec(a, i, tick);
    assert Evolves(a, b);
    var t := b.troops[i];
    if t.targetId.Some? && Fires(tick, HitIntervalTicks(t.hitSpeedTenths)) {
      DealDamageEvolves(b, tick, t.targetId.value, t.damage);
      EvolvesTransitive(a, b, TroopTurn(a, i, tick));
    }
  }

  lemma TowerTurnEvolves(a: Arena, j: nat, tick: nat)
    requires j < |a.towers|
    ensures Evolves(a, TowerTurn(a, j, tick))
  {
    var b := TowerAcquire(a, j);
    TowerAcquireSpec(a, j);
    assert Evolves(a, b);
    var tw := b.towers[j];
    if tw.targetId.Some? && Fires(tick, HitIntervalTicks(tw.hitSpeedTenths)) {
      DealDamageEvolves(b, tick, tw.targetId.value, tw.damage);
      EvolvesTransitive(a, b, TowerTurn(a, j, tick));
    }
  }

  /** One more troop's turn extends an evolution from a. */
  lemma TroopTurnExtends(a: Arena, p: Arena, i: nat, tick: nat)
    requires i < |p.troops|
    ensures Evolves(a, p) ==> Evolves(a, TroopTurn(p, i, tick))
  {
    TroopTurnEvolves(p, i, tick);
    EvolvesTransitive(a, p, TroopTurn(p, i, tick));
  }

  /** Every prefix of the troop pass is an evolution of its input. */
  lemma {:induction false} TroopsPassEvolves(a: Arena, n: nat, tick: nat)
    requires n <= |a.troops|
    ensures Evolves(a, TroopsPass(a, n, tick))
    decreases n, 1
  {
    if n > 0 {
      TroopsPassMoreTurns(a, n, tick);
    } else {
      TroopsPassNoTurn(a, tick);
    }
  }

  lemma TroopsPassNoTurn(a: Arena, tick: nat)
    ensures Evolves(a, TroopsPass(a, 0, tick))
  {
    EvolvesReflexive(a);
  }

  lemma {:induction false} TroopsPassMoreTurns(a: Arena, n: nat, tick: nat)
    requires 0 < n <= |a.troops|
    ensures Evolves(a, TroopTurn(TroopsPass(a, n - 1, tick), n - 1, tick))
    decreases n, 0
  {
    TroopsPassEvolves(a, n - 1, tick);
    TroopTurnExtends(a, TroopsPass(a, n - 1, tick), n - 1, tick);
  }

  /** One more tower's turn extends an evolution from a. */
  lemma TowerTurnExtends(a: Arena, p: Arena, i: nat, tick: nat)
    requires i < |p.towers|
    ensures Evolves(a, p) ==> Evolves(a, TowerTurn(p, i, tick))
  {
    TowerTurnEvolves(p, i, tick);
    EvolvesTransitive(a, p, TowerTurn(p, i, tick));
  }

  /** Every prefix of the tower pass is an evolution of its input. */
  lemma {:induction false} TowersPassEvolves(a: Arena, n: nat, tick: nat)
    requires n <= |a.towers|
    ensures Evolves(a, TowersPass(a, n, tick))
    decreases n, 1
  {
    if n > 0 {
      TowersPassMoreTurns(a, n, tick);
    } else {
      TowersPassNoTurn(a, tick);
    }
  }

  lemma TowersPassNoTurn(a: Arena, tick: nat)
    ensures Evolves(a, TowersPass(a, 0, tick))
  {
    EvolvesReflexive(a);
  }

  lemma {:induction false} TowersPassMoreTurns(a: Arena, n: nat, tick: nat)
    requires 0 < n <= |a.towers|
    ensures Evolves(a, TowerTurn(TowersPass(a, n - 1, tick), n - 1, tick))
    decreases n, 0
  {
    TowersPassEvolves(a, n - 1, tick);
    TowerTurnExtends(a, TowersPass(a, n - 1, tick), n - 1, tick);
  }

  /**
   * Over a whole combat phase: no entity is created, removed, moved or healed; only health,
   * target and status change; a target once held is never dropped or re-checked for range; and
   * the events of the phase are appended after the ones already raised.
   */
  lemma CombatEvolves(a: Arena, tick: nat)
    ensures Evolves(a, CombatPhase(a, tick))
  {
    var b := TroopsPass(a, |a.troops|, tick);
    TroopsPassEvolves(a, |a.troops|, tick);
    TowersPassEvolves(b, |a.towers|, tick);
    EvolvesTransitive(a, b, CombatPhase(a, tick));
  }

  /** A troop whose target is locked attacks it on its cadence without any range check. */
  lemma LockedTroopIgnoresRange(a: Arena, i: nat, tick: nat, x: nat)
    requires i < |a.troops| && a.troops[i].targetId == Some(x)
    requires Fires(tick, HitIntervalTicks(a.troops[i].hitSpeedTenths))
    ensures TroopTurn(a, i, tick) == DealDamage(a, tick, x, a.troops[i].damage)
  {
  }

  /** A tower whose target is locked attacks it on its cadence without any range check. */
  lemma LockedTowerIgnoresRange(a: Arena, j: nat, tick: nat, x: nat)
    requires j < |a.towers| && a.towers[j].targetId == Some(x)
    requires Fires(tick, HitIntervalTicks(a.towers[j].hitSpeedTenths))
    ensures TowerTurn(a, j, tick) == DealDamage(a, tick, x, a.towers[j].damage)
  {
  }

  // ----- The attack cadence -----

  /** Off its own cadence, a troop's turn is its acquisition alone: it hits no one, whoever else fires. */
  lemma TroopTurnOnlyOnCadence(a: Arena, i: nat, tick: nat)
    requires i < |a.troops| && !Fires(tick, HitIntervalTicks(a.troops[i].hitSpeedTenths))
    ensures TroopTurn(a, i, tick) == AcquireTarget(a, i, tick)
    ensures SameHealth(a, TroopTurn(a, i, tick))
  {
  }

  /** Off its own cadence, a tower's turn is its acquisition alone: it hits no one, whoever else fires. */
  lemma TowerTurnOnlyOnCadence(a: Arena, j: nat, tick: nat)
    requires j < |a.towers| && !Fires(tick, HitIntervalTicks(a.towers[j].hitSpeedTenths))
    ensures TowerTurn(a, j, tick) == TowerAcquire(a, j)
    ensures SameHealth(a, TowerTurn(a, j, tick))
  {
  }

  /** Every troop and tower of a is off its cadence on this tick. */
  ghost predicate NobodyFires(a: Arena, tick: nat)
  {
    && (forall k :: 0 <= k < |a.troops| ==> !Fires(tick, HitIntervalTicks(a.troops[k].hitSpeedTenths)))
    && (forall k :: 0 <= k < |a.towers| ==> !Fires(tick, HitIntervalTicks(a.towers[k].hitSpeedTenths)))
  }

  /** b has every health of a. */
  ghost predicate SameHealth(a: Arena, b: Arena)
  {
    && |b.troops| == |a.troops| && |b.towers| == |a.towers|
    && (forall k :: 0 <= k < |a.troops| ==> b.troops[k].health == a.troops[k].health)
    && (forall k :: 0 <= k < |a.towers| ==> b.towers[k].health == a.towers[k].health)
  }

  lemma SameHealthTransitive(a: Arena, b: Arena, c: Arena)
    requires SameHealth(a, b) && SameHealth(b, c)
    ensures SameHealth(a, c)
  {
  }

  /** Off cadence, a troop's turn is its acquisition alone, which touches no health and no cadence. */
  lemma TroopTurnOffCadence(b: Arena, i: nat, tick: nat)
    requires i < |b.troops| && NobodyFires(b, tick)
    ensures TroopTurn(b, i, tick) == AcquireTarget(b, i, tick)
    ensures SameHealth(b, TroopTurn(b, i, tick)) && NobodyFires(TroopTurn(b, i, tick), tick)
  {
    AcquireTargetSpec(b, i, tick);
    var c := AcquireTarget(b, i, tick);
    assert c.troops[i].hitSpeedTenths == b.troops[i].hitSpeedTenths;
  }

  /** Off cadence, a tower's turn is its acquisition alone. */
  lemma TowerTurnOffCadence(b: Arena, j: nat, tick: nat)
    requires j < |b.towers| && NobodyFires(b, tick)
    ensures TowerTurn(b, j, tick) == TowerAcquire(b, j)
    ensures SameHealth(b, TowerTurn(b, j, tick)) && NobodyFires(TowerTurn(b, j, tick), tick)
  {
    TowerAcquireSpec(b, j);
    var c := TowerAcquire(b, j);
    assert c.towers[j].hitSpeedTenths == b.towers[j].hitSpeedTenths;
  }

  lemma TroopsPassOffStep(a: Arena, n: nat, tick: nat)
    requires 0 < n <= |a.troops| && NobodyFires(TroopsPass(a, n - 1, tick), tick)
    ensures SameHealth(TroopsPass(a, n - 1, tick), TroopsPass(a, n, tick)) && NobodyFires(TroopsPass(a, n, tick), tick)
  {
    TroopTurnOffCadence(TroopsPass(a, n - 1, tick), n - 1, tick);
  }

  lemma {:induction false} TroopsPassOffCadence(a: Arena, n: nat, tick: nat)
    requires n <= |a.troops| && NobodyFires(a, tick)
    ensures SameHealth(a, TroopsPass(a, n, tick))
    ensures NobodyFires(TroopsPass(a, n, tick), tick)
  {
    if n > 0 {
      TroopsPassOffCadence(a, n - 1, tick);
      TroopsPassOffStep(a, n, tick);
      SameHealthTransitive(a, TroopsPass(a, n - 1, tick), TroopsPass(a, n, tick));
    }
  }

  lemma TowersPassOffStep(a: Arena, n: nat, tick: nat)
    requires 0 < n <= |a.towers| && NobodyFires(TowersPass(a, n - 1, tick), tick)
    ensures SameHealth(TowersPass(a, n - 1, tick), TowersPass(a, n, tick)) && NobodyFires(TowersPass(a, n, tick), tick)
  {
    TowerTurnOffCadence(TowersPass(a, n - 1, tick), n - 1, tick);
  }

  lemma {:induction false} TowersPassOffCadence(a: Arena, n: nat, tick: nat)
    requires n <= |a.towers| && NobodyFires(a, tick)
    ensures SameHealth(a, TowersPass(a, n, tick))
    ensures NobodyFires(TowersPass(a, n, tick), tick)
  {
    if n > 0 {
      TowersPassOffCadence(a, n - 1, tick);
      TowersPassOffStep(a, n, tick);
      SameHealthTransitive(a, TowersPass(a, n - 1, tick), TowersPass(a, n, tick));
    }
  }

  /** On a tick that is off every entity's attack cadence, combat deals no damage at all. */
  lemma CombatOffCadence(a: Arena, tick: nat)
    requires NobodyFires(a, tick)
    ensures SameHealth(a, CombatPhase(a, tick))
  {
    var b := TroopsPass(a, |a.troops|, tick);
    TroopsPassOffCadence(a, |a.troops|, tick);
    TowersPassOffCadence(b, |a.towers|, tick);
  }
}
