/**
 * Dead-troop cleanup (removeDeadEntities): troops at or below zero health leave the registry, and
 * every remaining troop that was targeting one of them drops the target and walks again.
 * Towers are never removed, and their targets are never cleared.
 */
module Cleanup {
  import opened Wrappers
  import opened Types

  /** The troops still alive, in registry order. */
  function Survivors(ts: seq<Troop>): (r: seq<Troop>)
    ensures |r| <= |ts|
    ensures forall k :: 0 <= k < |r| ==> r[k].health > 0
  {
    if ts == [] then []
    else
      var last := ts[|ts| - 1];
      Survivors(ts[..|ts| - 1]) + (if last.health > 0 then [last] else [])
  }

  /** The ids of the troops removed. */
  function DeadIds(ts: seq<Troop>): set<nat>
  {
    if ts == [] then {}
    else
      var last := ts[|ts| - 1];
      DeadIds(ts[..|ts| - 1]) + (if last.health <= 0 then {last.id} else {})
  }

  /** A troop whose target is among `dead` loses it and walks again. */
  function ClearTarget(t: Troop, dead: set<nat>): (r: Troop)
    ensures r.targetId.Some? ==> r.targetId.value !in dead
  {
    if t.targetId.Some? && t.targetId.value in dead then t.(targetId := None, status := Walk) else t
  }

  function ClearTargets(ts: seq<Troop>, dead: set<nat>): (r: seq<Troop>)
    ensures |r| == |ts|
    ensures forall k :: 0 <= k < |ts| ==> r[k] == ClearTarget(ts[k], dead)
  {
    seq(|ts|, k requires 0 <= k < |ts| => ClearTarget(ts[k], dead))
  }

  /** The registry after removeDeadEntities. */
  function RemoveDead(ts: seq<Troop>): seq<Troop>
  {
    ClearTargets(Survivors(ts), DeadIds(ts))
  }

  /** Troop ids strictly increase along the registry (they are issued by a counter). */
  ghost predicate IdsIncreasing(ts: seq<Troop>)
  {
    forall i, j :: 0 <= i < j < |ts| ==> ts[i].id < ts[j].id
  }

  // ----- Laws -----

  /** A troop survives exactly when it was registered and alive. */
  lemma {:induction false} SurvivorsMembership(ts: seq<Troop>)
    ensures forall t :: t in Survivors(ts) <==> t in ts && t.health > 0
  {
    if ts != [] {
      var init := ts[..|ts| - 1];
      SurvivorsMembership(init);
      assert ts == init + [ts[|ts| - 1]];
    }
  }

  /** An id is removed exactly when some registered troop carrying it is at or below zero health. */
  lemma {:induction false} DeadIdsMembership(ts: seq<Troop>)
    ensures forall id :: id in DeadIds(ts) <==> exists k :: 0 <= k < |ts| && ts[k].id == id && ts[k].health <= 0
  {
    if ts != [] {
      var init := ts[..|ts| - 1];
      DeadIdsMembership(init);
      forall id ensures id in DeadIds(ts) <==> exists k :: 0 <= k < |ts| && ts[k].id == id && ts[k].health <= 0 {
        if id in DeadIds(init) {
          var k :| 0 <= k < |init| && init[k].id == id && init[k].health <= 0;
          assert ts[k] == init[k];
        }
        if k :| 0 <= k < |ts| && ts[k].id == id && ts[k].health <= 0 {
          if k < |init| {
            assert init[k] == ts[k];
          }
        }
      }
    }
  }

  /** Cleanup keeps registry order and issued ids increasing. */
  lemma {:induction false} SurvivorsKeepIdsIncreasing(ts: seq<Troop>)
    requires IdsIncreasing(ts)
    ensures IdsIncreasing(Survivors(ts))
  {
    if ts != [] {
      var init := ts[..|ts| - 1];
      var last := ts[|ts| - 1];
      SurvivorsKeepIdsIncreasing(init);
      SurvivorsMembership(init);
      var s := Survivors(init);
      forall k | 0 <= k < |s| ensures s[k].id < last.id {
        assert s[k] in init;
      }
    }
  }

  /**
   * After cleanup: no troop at or below zero health remains, every live troop is still there
   * (changed at most in target and status), and no troop targets a removed id; a troop that did
   * has no target and walks.
   */
  lemma RemoveDeadSpec(ts: seq<Troop>)
    ensures var r := RemoveDead(ts);
      && |r| == |Survivors(ts)|
      && (forall k :: 0 <= k < |r| ==> r[k].health > 0)
      && (forall k :: 0 <= k < |r| ==> r[k].targetId.Some? ==> r[k].targetId.value !in DeadIds(ts))
      && (forall k :: 0 <= k < |r| ==>
            if Survivors(ts)[k].targetId.Some? && Survivors(ts)[k].targetId.value in DeadIds(ts)
            then r[k] == Survivors(ts)[k].(targetId := None, status := Walk)
            else r[k] == Survivors(ts)[k])
    ensures forall t :: t in ts && t.health > 0 ==> exists k :: 0 <= k < |RemoveDead(ts)| && RemoveDead(ts)[k].id == t.id
  {
    SurvivorsMembership(ts);
    var s := Survivors(ts);
    var r := RemoveDead(ts);
    forall t | t in ts && t.health > 0 ensures exists k :: 0 <= k < |r| && r[k].id == t.id {
      assert t in s;
      var k :| 0 <= k < |s| && s[k] == t;
      assert r[k].id == t.id;
    }
  }

  lemma RemoveDeadKeepsIdsIncreasing(ts: seq<Troop>)
    requires IdsIncreasing(ts)
    ensures IdsIncreasing(RemoveDead(ts))
  {
    SurvivorsKeepIdsIncreasing(ts);
  }

  // ----- The in-place loop, one visited troop at a time -----

  /**
   * The registry after the loop of removeDeadEntities has visited the first i troops of `orig`:
   * the live ones among them, then the unvisited rest, with targets on removed ids cleared.
   */
  function Partial(orig: seq<Troop>, i: nat): seq<Troop>
    requires i <= |orig|
  {
    ClearTargets(Survivors(orig[..i]) + orig[i..], DeadIds(orig[..i]))
  }

  ghost predicate IdsBelow(ts: seq<Troop>, bound: nat)
  {
    forall k :: 0 <= k < |ts| ==> ts[k].id < bound
  }

  lemma ClearTargetsAppend(a: seq<Troop>, b: seq<Troop>, dead: set<nat>)
    ensures ClearTargets(a + b, dead) == ClearTargets(a, dead) + ClearTargets(b, dead)
  {
  }

  lemma ClearTargetsTwice(ts: seq<Troop>, d1: set<nat>, d2: set<nat>)
    ensures ClearTargets(ClearTargets(ts, d1), d2) == ClearTargets(ts, d1 + d2)
  {
  }

  lemma SurvivorsOfPrefixBelow(orig: seq<Troop>, i: nat)
    requires i < |orig| && IdsIncreasing(orig)
    ensures IdsBelow(Survivors(orig[..i]), orig[i].id)
  {
    var s := Survivors(orig[..i]);
    SurvivorsMembership(orig[..i]);
    forall k | 0 <= k < |s| ensures s[k].id < orig[i].id {
      assert s[k] in orig[..i];
    }
  }

  /** The troop the walk stands on after i visits is orig[i], with at most its target cleared. */
  lemma PartialAt(orig: seq<Troop>, i: nat)
    requires i <= |orig|
    ensures var p := Partial(orig, i); var pos := |Survivors(orig[..i])|;
      && |p| - pos == |orig| - i
      && (i < |orig| ==> p[pos].id == orig[i].id && p[pos].health == orig[i].health)
  {
    var s := Survivors(orig[..i]);
    if i < |orig| {
      assert (s + orig[i..])[|s|] == orig[i];
    }
  }

  /** Visiting a live troop leaves the registry as it is. */
  lemma PartialStepLive(orig: seq<Troop>, i: nat)
    requires i < |orig| && orig[i].health > 0
    ensures Partial(orig, i + 1) == Partial(orig, i)
    ensures |Survivors(orig[..i + 1])| == |Survivors(orig[..i])| + 1
  {
    assert orig[..i + 1][..i] == orig[..i];
    assert Survivors(orig[..i + 1]) == Survivors(orig[..i]) + [orig[i]];
    assert DeadIds(orig[..i + 1]) == DeadIds(orig[..i]);
    assert Survivors(orig[..i]) + [orig[i]] + orig[i + 1..] == Survivors(orig[..i]) + orig[i..];
  }

  /**
   * Visiting a dead troop: it is found at the position just after the live troops already visited;
   * deleting it there and clearing the targets on its id gives the next partial registry.
   */
  lemma PartialStepDead(orig: seq<Troop>, i: nat)
    requires i < |orig| && orig[i].health <= 0 && IdsIncreasing(orig)
    ensures var e := Partial(orig, i); var idx := |Survivors(orig[..i])|;
      && idx < |e| && e[idx].id == orig[i].id
      && (forall k :: 0 <= k < idx ==> e[k].id != orig[i].id)
      && ClearTargets(e[..idx] + e[idx + 1..], {orig[i].id}) == Partial(orig, i + 1)
      && |Survivors(orig[..i + 1])| == idx
  {
    var s := Survivors(orig[..i]);
    var d := DeadIds(orig[..i]);
    var e := Partial(orig, i);
    var idx := |s|;
    assert orig[..i + 1][..i] == orig[..i];
    assert Survivors(orig[..i + 1]) == s;
    assert DeadIds(orig[..i + 1]) == d + {orig[i].id};
    assert orig[i..] == [orig[i]] + orig[i + 1..];
    ClearTargetsAppend(s, orig[i..], d);
    ClearTargetsAppend([orig[i]], orig[i + 1..], d);
    SurvivorsOfPrefixBelow(orig, i);
    assert e[..idx] == ClearTargets(s, d);
    assert e[idx + 1..] == ClearTargets(orig[i + 1..], d);
    ClearTargetsAppend(s, orig[i + 1..], d);
    ClearTargetsTwice(s + orig[i + 1..], d, {orig[i].id});
  }

  /** After the last visit, the registry is the cleaned-up one. */
  lemma PartialEnd(orig: seq<Troop>)
    ensures Partial(orig, |orig|) == RemoveDead(orig)
  {
    assert orig[..|orig|] == orig;
    assert Survivors(orig[..|orig|]) + orig[|orig|..] == Survivors(orig);
  }

  /** Where the walk stands after visiting the first i troops: the number of live troops among them. */
  function Kept(orig: seq<Troop>, i: nat): (r: nat)
    requires i <= |orig|
    ensures r <= i
  {
    if i == 0 then 0 else Kept(orig, i - 1) + (if orig[i - 1].health > 0 then 1 else 0)
  }

  /**
   * The registry as the walk of removeDeadEntities leaves it after visiting the first i troops of
   * `orig`, one visit at a time: a dead troop is deleted where the walk stands and every troop
   * targeting it drops the target; a live one is stepped over. What is left to visit is always
   * the unvisited rest of `orig`.
   */
  function Walked(orig: seq<Troop>, i: nat): (r: seq<Troop>)
    requires i <= |orig|
    ensures |r| == Kept(orig, i) + (|orig| - i)
  {
    if i == 0 then orig
    else
      var e := Walked(orig, i - 1);
      var pos := Kept(orig, i - 1);
      if orig[i - 1].health <= 0 then ClearTargets(e[..pos] + e[pos + 1..], {orig[i - 1].id}) else e
  }

  /** The step-by-step walk agrees with the closed form, so it ends in RemoveDead. */
  lemma {:induction false} WalkedIsPartial(orig: seq<Troop>, i: nat)
    requires i <= |orig| && IdsIncreasing(orig)
    ensures Walked(orig, i) == Partial(orig, i) && Kept(orig, i) == |Survivors(orig[..i])|
  {
    if i == 0 {
      assert orig[..0] == [] && orig[0..] == orig;
    } else {
      WalkedIsPartial(orig, i - 1);
      if orig[i - 1].health <= 0 {
        WalkedDeadStep(orig, i - 1);
      } else {
        WalkedLiveStep(orig, i - 1);
      }
    }
  }

  lemma WalkedLiveStep(orig: seq<Troop>, i: nat)
    requires i < |orig| && orig[i].health > 0
    requires Walked(orig, i) == Partial(orig, i) && Kept(orig, i) == |Survivors(orig[..i])|
    ensures Walked(orig, i + 1) == Partial(orig, i + 1) && Kept(orig, i + 1) == |Survivors(orig[..i + 1])|
  {
    assert Walked(orig, i + 1) == Walked(orig, i);
    PartialStepLive(orig, i);
  }

  lemma WalkedDeadStep(orig: seq<Troop>, i: nat)
    requires i < |orig| && IdsIncreasing(orig) && orig[i].health <= 0
    requires Walked(orig, i) == Partial(orig, i) && Kept(orig, i) == |Survivors(orig[..i])|
    ensures Walked(orig, i + 1) == Partial(orig, i + 1) && Kept(orig, i + 1) == |Survivors(orig[..i + 1])|
  {
    var e := Walked(orig, i);
    var pos := Kept(orig, i);
    assert Walked(orig, i + 1) == ClearTargets(e[..pos] + e[pos + 1..], {orig[i].id});
    PartialStepDead(orig, i);
  }

  /** The walk ends in the cleaned-up registry. */
  lemma WalkEndsInRemoveDead(orig: seq<Troop>)
    requires IdsIncreasing(orig)
    ensures Walked(orig, |orig|) == RemoveDead(orig)
  {
    WalkedIsPartial(orig, |orig|);
    PartialEnd(orig);
  }
}
