/** The wager record kept by the preferences-backed repository (model/UserData.kt): the
    battle it was placed on, the chosen fighter, the stake, the outcome and the signed
    winnings. */
module BetModel {

  datatype BetResult = WIN | LOSS | PENDING

  /** `BetResult.name`. */
  function ResultName(r: BetResult): string {
    match r
    case WIN => "WIN"
    case LOSS => "LOSS"
    case PENDING => "PENDING"
  }

  /** `Bet`: the id is a random UUID and the timestamp the clock reading at creation; both are
      opaque values supplied by the caller. */
  datatype Bet = Bet(
    id: string,
    battle: string,
    winnerSelected: string,
    amount: int,
    result: BetResult,
    finalWinnings: int,
    timestamp: int)
}
