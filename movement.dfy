/**
 * Movement Resolver: the lane/bridge pathing rule (calculateNextPosition) and the per-tick
 * movement of every troop that has no target (handleMovement), as pure functions with their laws.
 */
module Movement {
  import opened Types
  import opened Constants

  function Abs(n: int): nat
  {
    if n < 0 then -n else n
  }

  /** Distance from column x to the nearer lane column. */
  function LaneDistance(x: int): nat
  {
    Min(Abs(x - LEFT_PATH_X), Abs(x - RIGHT_PATH_X))
  }

  /** The y-direction of the enemy baseline: the player walks towards y = 0, the opponent towards y = 38. */
  function Forward(owner: Owner): int
  {
    if owner == Player then -1 else 1
  }

  /** q is one orthogonal step away from p: exactly one coordinate changes, by exactly one. */
  predicate UnitStep(p: Position, q: Position)
  {
    (Abs(q.x - p.x) == 1 && q.y == p.y) || (q.x == p.x && Abs(q.y - p.y) == 1)
  }

  /** calculateNextPosition: where a troop of `owner` standing on `p` steps next. */
  function CalculateNextPosition(p: Position, owner: Owner): (r: Position)
    ensures UnitStep(p, r)
    ensures !IsOnMainPath(p.x, p.y) ==> r.y == p.y && LaneDistance(r.x) == LaneDistance(p.x) - 1
  {
    var x, y := p.x, p.y;
    if IsOnMainPath(x, y) then
      if y == BRIDGE_Y && 6 <= x <= 11 then Position(x + 1, y)
      else if y == BRIDGE_Y && 12 <= x <= 17 then Position(x - 1, y)
      else Position(x, if owner == Player then y - 1 else y + 1)
    else
      var distToLeft := Abs(x - LEFT_PATH_X);
      var distToRight := Abs(x - RIGHT_PATH_X);
      if distToLeft < distToRight then
        Position(if x < LEFT_PATH_X then x + 1 else x - 1, y)
      else
        Position(if x < RIGHT_PATH_X then x + 1 else x - 1, y)
  }

  /** On a lane column (off the bridge stretch 6..17 of the bridge row) a troop advances one row towards the enemy baseline. */
  lemma LaneAdvancesTowardsEnemy(p: Position, owner: Owner)
    requires IsOnMainPath(p.x, p.y)
    requires p.y != BRIDGE_Y || p.x < 6 || 17 < p.x
    ensures CalculateNextPosition(p, owner) == Position(p.x, p.y + Forward(owner))
  {
  }

  /** Off the main path a troop steps sideways towards the nearer lane column, never past it. */
  lemma OffLaneStepsTowardsNearerLane(p: Position, owner: Owner)
    requires !IsOnMainPath(p.x, p.y)
    ensures var r := CalculateNextPosition(p, owner);
      r.y == p.y &&
      (p.x <= 11 ==> Abs(r.x - LEFT_PATH_X) == Abs(p.x - LEFT_PATH_X) - 1) &&
      (p.x >= 12 ==> Abs(r.x - RIGHT_PATH_X) == Abs(p.x - RIGHT_PATH_X) - 1)
  {
  }

  /** The position after n eligible moves from p. */
  function PathAfter(p: Position, owner: Owner, n: nat): Position
    decreases n
  {
    if n == 0 then p else PathAfter(CalculateNextPosition(p, owner), owner, n - 1)
  }

  /** An off-lane troop reaches a lane column on its own row after exactly LaneDistance moves, and not before. */
  lemma {:induction false} OffLaneReachesLane(p: Position, owner: Owner)
    requires !IsOnMainPath(p.x, p.y)
    ensures var q := PathAfter(p, owner, LaneDistance(p.x));
      q.y == p.y && (q.x == LEFT_PATH_X || q.x == RIGHT_PATH_X)
    ensures forall k :: 0 <= k < LaneDistance(p.x) ==> !IsOnMainPath(PathAfter(p, owner, k).x, PathAfter(p, owner, k).y)
    decreases LaneDistance(p.x)
  {
    var next := CalculateNextPosition(p, owner);
    if IsOnMainPath(next.x, next.y) {
      assert LaneDistance(next.x) == 0;
      assert PathAfter(p, owner, 1) == PathAfter(next, owner, 0);
    } else {
      OffLaneReachesLane(next, owner);
      assert PathAfter(p, owner, LaneDistance(p.x)) == PathAfter(next, owner, LaneDistance(next.x));
      forall k | 0 <= k < LaneDistance(p.x)
        ensures !IsOnMainPath(PathAfter(p, owner, k).x, PathAfter(p, owner, k).y)
      {
        if k > 0 {
          assert PathAfter(p, owner, k) == PathAfter(next, owner, k - 1);
        }
      }
    }
  }

  /**
   * The bridge stretch 6..17 of the bridge row is a trap: each step there stays on the stretch, so
   * a troop without a target that enters it never leaves it (it ends up alternating between the
   * columns 11 and 12).
   */
  lemma {:induction false} BridgeStretchIsClosed(p: Position, owner: Owner, n: nat)
    requires p.y == BRIDGE_Y && 6 <= p.x <= 17
    ensures var q := PathAfter(p, owner, n); q.y == BRIDGE_Y && 6 <= q.x <= 17
    decreases n
  {
    if n > 0 {
      BridgeStretchIsClosed(CalculateNextPosition(p, owner), owner, n - 1);
    }
  }

  lemma BridgeOscillation(owner: Owner)
    ensures PathAfter(Position(11, BRIDGE_Y), owner, 1) == Position(12, BRIDGE_Y)
    ensures PathAfter(Position(11, BRIDGE_Y), owner, 2) == Position(11, BRIDGE_Y)
  {
  }

  /** One troop's movement on one tick: only a troop without a target moves, and only on its cadence. */
  function MoveTroop(t: Troop, tick: nat): (r: Troop)
    ensures r == t.(position := r.position, status := r.status)
    ensures r.position != t.position <==> t.targetId.None? && IsTimeForMove(t.speed, tick)
    ensures r.position != t.position ==> UnitStep(t.position, r.position) && r.status == Walk
    ensures r.position == t.position ==> r == t
  {
    if t.targetId.Some? || !IsTimeForMove(t.speed, tick) then t
    else t.(position := CalculateNextPosition(t.position, t.owner), status := Walk)
  }

  /** handleMovement as a value: every troop, in registry order, takes its move for this tick. */
  function MovementPhase(troops: seq<Troop>, tick: nat): (r: seq<Troop>)
    ensures |r| == |troops|
    ensures forall k :: 0 <= k < |r| ==> r[k] == MoveTroop(troops[k], tick)
  {
    seq(|troops|, k requires 0 <= k < |troops| => MoveTroop(troops[k], tick))
  }
}
