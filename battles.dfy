/** The rap battles offered for wagers (model/Battle.kt): immutable records with two
    fighters and a predetermined, hidden winner. The drawable resource id is presentation
    only and is not kept. */
module Battles {

  datatype Battle = Battle(id: int, rapFighterA: string, rapFighterB: string, predictedWinner: string)

  /** The invariant the wager logic relies on: two different fighters, one of whom wins. */
  predicate WellFormed(b: Battle) {
    && b.rapFighterA != b.rapFighterB
    && (b.predictedWinner == b.rapFighterA || b.predictedWinner == b.rapFighterB)
  }

  /** `ActiveBattles`: three well-formed battles with ids 1, 2 and 3, in that order. */
  function ActiveBattles(): (bs: seq<Battle>)
    ensures |bs| == 3
    ensures forall k :: 0 <= k < |bs| ==> bs[k].id == k + 1 && WellFormed(bs[k])
  {
    [ Battle(1, "Trueno", "Dani", "Trueno"),
      Battle(2, "Wos", "Mks", "Wos"),
      Battle(3, "Aczino", "Gazir", "Gazir") ]
  }

  /** The ids of the active battles are pairwise distinct. */
  lemma ActiveBattleIdsDistinct()
    ensures forall j, k :: 0 <= j < k < |ActiveBattles()| ==> ActiveBattles()[j].id != ActiveBattles()[k].id
  {
  }
}
