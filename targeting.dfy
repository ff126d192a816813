/**
 * Target acquisition: nearest-in-range scans over the troop registry and the tower list
 * (findNearestTarget, findNearestTowerTarget), with distances compared in squared integers.
 */
module Targeting {
  import opened Wrappers
  import opened Types

  /** Squared Euclidean distance: getDistance(a, b) <= r exactly when DistSq(a, b) <= r * r. */
  function DistSq(a: Position, b: Position): int
  {
    (a.x - b.x) * (a.x - b.x) + (a.y - b.y) * (a.y - b.y)
  }

  /** What a scan sees of a troop or a tower: its id, its side and where it stands. */
  datatype Candidate = Candidate(id: nat, owner: Owner, position: Position)

  function TroopCandidates(troops: seq<Troop>): (r: seq<Candidate>)
    ensures |r| == |troops|
    ensures forall k :: 0 <= k < |troops| ==>
      r[k] == Candidate(troops[k].id, troops[k].owner, troops[k].position)
  {
    seq(|troops|, k requires 0 <= k < |troops| => Candidate(troops[k].id, troops[k].owner, troops[k].position))
  }

  function TowerCandidates(towers: seq<Tower>): (r: seq<Candidate>)
    ensures |r| == |towers|
    ensures forall k :: 0 <= k < |towers| ==>
      r[k] == Candidate(towers[k].id, towers[k].owner, towers[k].position)
  {
    seq(|towers|, k requires 0 <= k < |towers| => Candidate(towers[k].id, towers[k].owner, towers[k].position))
  }

  /** The order in which findNearestTarget examines candidates: every troop in registry order, then every tower. */
  function ScanOrder(troops: seq<Troop>, towers: seq<Tower>): seq<Candidate>
  {
    TroopCandidates(troops) + TowerCandidates(towers)
  }

  /** Where each troop and tower sits in the scan order. */
  lemma ScanOrderAt(troops: seq<Troop>, towers: seq<Tower>)
    ensures |ScanOrder(troops, towers)| == |troops| + |towers|
    ensures forall k :: 0 <= k < |troops| ==>
      ScanOrder(troops, towers)[k] == Candidate(troops[k].id, troops[k].owner, troops[k].position)
    ensures forall k :: 0 <= k < |towers| ==>
      ScanOrder(troops, towers)[|troops| + k] == Candidate(towers[k].id, towers[k].owner, towers[k].position)
  {
  }

  /** c is on the other side from `owner` and within `range` of `from`. */
  predicate Eligible(c: Candidate, owner: Owner, from: Position, range: nat)
  {
    Opposes(owner, from, range, c.owner, c.position)
  }

  /** An entity of side `other` standing on `at` is a foe of `owner` within `range` of `from`. */
  predicate Opposes(owner: Owner, from: Position, range: nat, other: Owner, at: Position)
  {
    other != owner && DistSq(from, at) <= range * range
  }

  /**
   * The scan loop of the source as a value: the index of the candidate it ends up holding.
   * A later candidate replaces the held one only when it is strictly nearer.
   */
  function Pick(cands: seq<Candidate>, owner: Owner, from: Position, range: nat): (r: Option<nat>)
    ensures r.Some? ==> r.value < |cands|
    decreases |cands|
  {
    if cands == [] then None
    else
      var prev := Pick(cands[..|cands| - 1], owner, from, range);
      var c := cands[|cands| - 1];
      if Eligible(c, owner, from, range)
         && (prev.None? || DistSq(from, c.position) < DistSq(from, cands[prev.value].position))
      then Some(|cands| - 1)
      else prev
  }

  /** One more candidate examined by the scan loop: it is taken only when eligible and strictly nearer than the held one. */
  lemma PickStep(cands: seq<Candidate>, n: nat, owner: Owner, from: Position, range: nat)
    requires n < |cands|
    ensures var prev := Pick(cands[..n], owner, from, range);
      Pick(cands[..n + 1], owner, from, range) ==
        if Eligible(cands[n], owner, from, range)
           && (prev.None? || DistSq(from, cands[n].position) < DistSq(from, cands[prev.value].position))
        then Some(n) else prev
  {
    assert cands[..n + 1][..n] == cands[..n];
    var prev := Pick(cands[..n], owner, from, range);
    if prev.Some? {
      assert cands[..n + 1][prev.value] == cands[prev.value];
    }
  }

  /** k is eligible, no eligible candidate is nearer, and every eligible candidate before k is strictly farther. */
  ghost predicate IsFirstNearest(cands: seq<Candidate>, owner: Owner, from: Position, range: nat, k: int)
  {
    && 0 <= k < |cands|
    && Eligible(cands[k], owner, from, range)
    && (forall j :: 0 <= j < |cands| && Eligible(cands[j], owner, from, range) ==>
          DistSq(from, cands[k].position) <= DistSq(from, cands[j].position))
    && (forall j :: 0 <= j < k && Eligible(cands[j], owner, from, range) ==>
          DistSq(from, cands[k].position) < DistSq(from, cands[j].position))
  }

  /** The scan returns the first nearest eligible candidate, and nothing exactly when none is eligible. */
  lemma {:induction false} PickIsFirstNearest(cands: seq<Candidate>, owner: Owner, from: Position, range: nat)
    ensures Pick(cands, owner, from, range).Some? ==>
      IsFirstNearest(cands, owner, from, range, Pick(cands, owner, from, range).value)
    ensures Pick(cands, owner, from, range).None? <==>
      forall j :: 0 <= j < |cands| ==> !Eligible(cands[j], owner, from, range)
    decreases |cands|
  {
    if cands != [] {
      var n := |cands| - 1;
      var prefix := cands[..n];
      PickIsFirstNearest(prefix, owner, from, range);
      assert forall j :: 0 <= j < n ==> prefix[j] == cands[j];
    }
  }

  /** At most one candidate is the first nearest one. */
  lemma FirstNearestIsUnique(cands: seq<Candidate>, owner: Owner, from: Position, range: nat, k1: int, k2: int)
    requires IsFirstNearest(cands, owner, from, range, k1)
    requires IsFirstNearest(cands, owner, from, range, k2)
    ensures k1 == k2
  {
  }

  /** Pick is exactly the first-nearest rule: it returns k if and only if k is the first nearest eligible candidate. */
  lemma PickCharacterization(cands: seq<Candidate>, owner: Owner, from: Position, range: nat, k: int)
    ensures Pick(cands, owner, from, range) == Some(k) <==> IsFirstNearest(cands, owner, from, range, k)
  {
    PickIsFirstNearest(cands, owner, from, range);
    if IsFirstNearest(cands, owner, from, range, k) {
      var r := Pick(cands, owner, from, range);
      assert r.Some?;
      FirstNearestIsUnique(cands, owner, from, range, k, r.value);
    }
  }

  /** findNearestTarget: the id of the nearest opposing troop or tower within the troop's range; troops are scanned first. */
  function NearestTarget(troops: seq<Troop>, towers: seq<Tower>, troop: Troop): Option<nat>
  {
    var cs := ScanOrder(troops, towers);
    match Pick(cs, troop.owner, troop.position, troop.range)
    case None => None
    case Some(k) => Some(cs[k].id)
  }

  /** findNearestTowerTarget: the id of the nearest opposing troop within the tower's range; towers never target towers. */
  function NearestTowerTarget(troops: seq<Troop>, tower: Tower): Option<nat>
  {
    match Pick(TroopCandidates(troops), tower.owner, tower.position, tower.range)
    case None => None
    case Some(k) => Some(troops[k].id)
  }

  /** No opposing troop and no opposing tower within `range` of `from`. */
  ghost predicate NoFoeInRange(troops: seq<Troop>, towers: seq<Tower>, owner: Owner, from: Position, range: nat)
  {
    && (forall k :: 0 <= k < |troops| ==> !Opposes(owner, from, range, troops[k].owner, troops[k].position))
    && (forall k :: 0 <= k < |towers| ==> !Opposes(owner, from, range, towers[k].owner, towers[k].position))
  }

  /** No candidate of the scan is eligible. */
  ghost predicate NoneEligible(cs: seq<Candidate>, owner: Owner, from: Position, range: nat)
  {
    forall j :: 0 <= j < |cs| ==> !Eligible(cs[j], owner, from, range)
  }

  lemma NoneEligibleMeansNoFoe(troops: seq<Troop>, towers: seq<Tower>, owner: Owner, from: Position, range: nat)
    requires NoneEligible(ScanOrder(troops, towers), owner, from, range)
    ensures NoFoeInRange(troops, towers, owner, from, range)
  {
    var cs := ScanOrder(troops, towers);
    ScanOrderAt(troops, towers);
    forall k | 0 <= k < |troops| ensures !Opposes(owner, from, range, troops[k].owner, troops[k].position) {
      assert !Eligible(cs[k], owner, from, range);
    }
    forall k | 0 <= k < |towers| ensures !Opposes(owner, from, range, towers[k].owner, towers[k].position) {
      assert !Eligible(cs[|troops| + k], owner, from, range);
    }
  }

  lemma NoFoeMeansNoneEligible(troops: seq<Troop>, towers: seq<Tower>, owner: Owner, from: Position, range: nat)
    requires NoFoeInRange(troops, towers, owner, from, range)
    ensures NoneEligible(ScanOrder(troops, towers), owner, from, range)
  {
    var cs := ScanOrder(troops, towers);
    ScanOrderAt(troops, towers);
    forall j | 0 <= j < |cs| ensures !Eligible(cs[j], owner, from, range) {
      if j >= |troops| {
        var k := j - |troops|;
        assert cs[|troops| + k] == cs[j];
      }
    }
  }

  /**
   * A troop's choice: it finds nothing exactly when no opposing troop and no opposing tower is in
   * range; otherwise it takes the first nearest eligible candidate of the scan (ties go to the
   * earlier one, so to troops before towers).
   */
  lemma NearestTargetSpec(troops: seq<Troop>, towers: seq<Tower>, troop: Troop)
    ensures NearestTarget(troops, towers, troop).None? <==>
      NoFoeInRange(troops, towers, troop.owner, troop.position, troop.range)
    ensures var r := NearestTarget(troops, towers, troop);
      var cs := ScanOrder(troops, towers);
      r.Some? ==> exists k :: IsFirstNearest(cs, troop.owner, troop.position, troop.range, k) && cs[k].id == r.value
  {
    var cs := ScanOrder(troops, towers);
    var owner, from, range := troop.owner, troop.position, troop.range;
    PickIsFirstNearest(cs, owner, from, range);
    if NoneEligible(cs, owner, from, range) {
      NoneEligibleMeansNoFoe(troops, towers, owner, from, range);
    }
    if NoFoeInRange(troops, towers, owner, from, range) {
      NoFoeMeansNoneEligible(troops, towers, owner, from, range);
    }
  }

  /** A tower's choice is always an opposing troop in range, the first nearest one in registry order. */
  lemma NearestTowerTargetSpec(troops: seq<Troop>, tower: Tower)
    ensures var r := NearestTowerTarget(troops, tower);
      r.None? <==>
        forall k :: 0 <= k < |troops| ==>
          !Opposes(tower.owner, tower.position, tower.range, troops[k].owner, troops[k].position)
    ensures var r := NearestTowerTarget(troops, tower);
      r.Some? ==> exists k ::
        && IsFirstNearest(TroopCandidates(troops), tower.owner, tower.position, tower.range, k)
        && troops[k].id == r.value
        && Opposes(tower.owner, tower.position, tower.range, troops[k].owner, troops[k].position)
  {
    var cs := TroopCandidates(troops);
    var p := Pick(cs, tower.owner, tower.position, tower.range);
    PickIsFirstNearest(cs, tower.owner, tower.position, tower.range);
    if p.Some? {
      var k := p.value;
      assert cs[k] == Candidate(troops[k].id, troops[k].owner, troops[k].position);
      assert IsFirstNearest(cs, tower.owner, tower.position, tower.range, k);
    } else {
      forall k | 0 <= k < |troops|
        ensures !Opposes(tower.owner, tower.position, tower.range, troops[k].owner, troops[k].position)
      {
        assert cs[k] == Candidate(troops[k].id, troops[k].owner, troops[k].position);
        assert !Eligible(cs[k], tower.owner, tower.position, tower.range);
      }
    }
  }
}
