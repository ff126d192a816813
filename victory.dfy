/** Victory evaluation (checkVictory): the match ends when a King tower is missing or at or below zero health. */
module Victory {
  import opened Wrappers
  import opened Types

  datatype VictoryResult = VictoryResult(winner: Option<Owner>, reason: string)

  const KING_DESTROYED: string := "King Tower destroyed"

  /** towers.find(t => t.type === 'KING' && t.owner === owner). */
  function FindKing(towers: seq<Tower>, owner: Owner): (r: Option<nat>)
    ensures r.Some? ==> r.value < |towers| && towers[r.value].kind == King && towers[r.value].owner == owner
    ensures r.Some? ==> forall k :: 0 <= k < r.value ==> !(towers[k].kind == King && towers[k].owner == owner)
    ensures r.None? <==> forall k :: 0 <= k < |towers| ==> !(towers[k].kind == King && towers[k].owner == owner)
    decreases |towers|
  {
    if towers == [] then None
    else if towers[0].kind == King && towers[0].owner == owner then Some(0)
    else match FindKing(towers[1..], owner)
      case None => None
      case Some(k) => Some(k + 1)
  }

  /** The King of `owner` is missing or at or below zero health. */
  predicate KingDown(towers: seq<Tower>, owner: Owner)
  {
    match FindKing(towers, owner)
    case None => true
    case Some(i) => towers[i].health <= 0
  }

  /**
   * The player's King is examined first, so when both Kings are down the opponent wins; a winner
   * always comes with the reason "King Tower destroyed", no winner with the empty reason.
   */
  function CheckVictory(towers: seq<Tower>): (r: VictoryResult)
    ensures r.winner == Some(Opponent) <==> KingDown(towers, Player)
    ensures r.winner == Some(Player) <==> !KingDown(towers, Player) && KingDown(towers, Opponent)
    ensures r.winner.None? <==> !KingDown(towers, Player) && !KingDown(towers, Opponent)
    ensures r.reason == if r.winner.Some? then KING_DESTROYED else ""
  {
    if KingDown(towers, Player) then VictoryResult(Some(Opponent), KING_DESTROYED)
    else if KingDown(towers, Opponent) then VictoryResult(Some(Player), KING_DESTROYED)
    else VictoryResult(None, "")
  }

  /** Exactly one King per side, as the initial layout has and nothing ever removes. */
  ghost predicate OneKingEach(towers: seq<Tower>)
  {
    forall i, j ::
      (0 <= i < |towers| && 0 <= j < |towers| && towers[i].kind == King && towers[j].kind == King &&
       towers[i].owner == towers[j].owner) ==> i == j
  }

  /**
   * Without reference to the search: when every King tower is unique for its side, a side's King
   * is down exactly when no King tower of that side stands above zero health.
   */
  lemma KingDownMeansNoStandingKing(towers: seq<Tower>, owner: Owner)
    requires OneKingEach(towers)
    ensures KingDown(towers, owner) <==>
      forall k :: 0 <= k < |towers| && towers[k].kind == King && towers[k].owner == owner ==> towers[k].health <= 0
  {
    match FindKing(towers, owner)
    case None =>
    case Some(i) =>
      forall k | 0 <= k < |towers| && towers[k].kind == King && towers[k].owner == owner
        ensures k == i
      {
      }
  }

  /** The winner, when there is one, is a side whose opposing King is down. */
  lemma WinnerFacesFallenKing(towers: seq<Tower>)
    ensures var r := CheckVictory(towers);
      r.winner.Some? ==> KingDown(towers, if r.winner.value == Player then Opponent else Player)
  {
  }
}
