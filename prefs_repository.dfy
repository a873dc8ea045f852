/** The SharedPreferences variant of the user repository (repository/UserRepository.kt): one
    preferences file holding the user name, the balance and the bet history. The history is
    stored as a JSON document; the model keeps the decoded list, taking the Gson encoding and
    decoding to be inverse to each other. */
module PrefsRepository {
  import opened Wrappers
  import opened BetModel

  const BALANCE_KEY: string := "user_balance"
  const USERNAME_KEY: string := "user_username"
  const HISTORY_KEY: string := "bet_history"
  const INITIAL_BALANCE: int := 50000

  /** A stored preference value. */
  datatype PrefValue = StringValue(s: string) | IntValue(i: int) | HistoryValue(bets: seq<Bet>)

  /** Every key this repository writes holds the kind of value it reads back. */
  predicate WellTyped(prefs: map<string, PrefValue>) {
    && (USERNAME_KEY in prefs ==> prefs[USERNAME_KEY].StringValue?)
    && (BALANCE_KEY in prefs ==> prefs[BALANCE_KEY].IntValue?)
    && (HISTORY_KEY in prefs ==> prefs[HISTORY_KEY].HistoryValue?)
  }

  class UserRepository {
    var prefs: map<string, PrefValue>

    ghost predicate Valid()
      reads this
    {
      WellTyped(prefs)
    }

    /** `getUsername()`: null when nothing is stored. */
    ghost function Username(): Option<string>
      reads this
      requires Valid()
    {
      if USERNAME_KEY in prefs then Some(prefs[USERNAME_KEY].s) else None
    }

    /** `getBalance()`: 50000 when nothing is stored. */
    ghost function Balance(): int
      reads this
      requires Valid()
    {
      if BALANCE_KEY in prefs then prefs[BALANCE_KEY].i else INITIAL_BALANCE
    }

    /** `getBetHistory()`: the empty list when nothing is stored. */
    ghost function History(): seq<Bet>
      reads this
      requires Valid()
    {
      if HISTORY_KEY in prefs then prefs[HISTORY_KEY].bets else []
    }

    /** Opens the preferences file with whatever it already holds. */
    constructor (stored: map<string, PrefValue>)
      requires WellTyped(stored)
      ensures Valid() && prefs == stored
    {
      prefs := stored;
    }

    method GetUsername() returns (r: Option<string>)
      requires Valid()
      ensures r == Username()
      ensures r.None? <==> USERNAME_KEY !in prefs
    {
      r := if USERNAME_KEY in prefs then Some(prefs[USERNAME_KEY].s) else None;
    }

    method GetBalance() returns (r: int)
      requires Valid()
      ensures r == Balance()
      ensures BALANCE_KEY !in prefs ==> r == INITIAL_BALANCE
    {
      r := if BALANCE_KEY in prefs then prefs[BALANCE_KEY].i else INITIAL_BALANCE;
    }

    /** `saveSession`: writes the user name and the balance, leaving the history alone. */
    method SaveSession(username: string, balance: int)
      requires Valid()
      modifies this
      ensures Valid()
      ensures prefs == old(prefs)[USERNAME_KEY := StringValue(username)][BALANCE_KEY := IntValue(balance)]
      ensures Username() == Some(username) && Balance() == balance && History() == old(History())
    {
      prefs := prefs[USERNAME_KEY := StringValue(username)][BALANCE_KEY := IntValue(balance)];
    }

    /** `clearSession`: `edit().clear()` empties the whole file, history included. */
    method ClearSession()
      requires Valid()
      modifies this
      ensures Valid()
      ensures prefs == map[]
      ensures Username() == None && Balance() == INITIAL_BALANCE && History() == []
    {
      prefs := map[];
    }

    method GetBetHistory() returns (r: seq<Bet>)
      requires Valid()
      ensures r == History()
      ensures HISTORY_KEY !in prefs ==> r == []
    {
      r := if HISTORY_KEY in prefs then prefs[HISTORY_KEY].bets else [];
    }

    /** `saveBet`: reads the history, inserts the bet at index 0 and stores the list back. */
    method SaveBet(newBet: Bet)
      requires Valid()
      modifies this
      ensures Valid()
      ensures History() == [newBet] + old(History())
      ensures Username() == old(Username()) && Balance() == old(Balance())
    {
      var currentHistory := GetBetHistory();
      currentHistory := [newBet] + currentHistory;
      prefs := prefs[HISTORY_KEY := HistoryValue(currentHistory)];
    }
  }

  /** A fresh preferences file reads back as no user, the initial balance and no bets. */
  method ReadEmpty() returns (username: Option<string>, balance: int, history: seq<Bet>)
    ensures username == None && balance == 50000 && history == []
  {
    var repo := new UserRepository(map[]);
    username := repo.GetUsername();
    balance := repo.GetBalance();
    history := repo.GetBetHistory();
  }

  /** The history is newest-first: two saves read back in reverse order of saving, ahead of
      whatever was stored before. */
  method SaveTwoBets(stored: map<string, PrefValue>, first: Bet, second: Bet) returns (history: seq<Bet>)
    requires WellTyped(stored)
    ensures |history| == 2 + (if HISTORY_KEY in stored then |stored[HISTORY_KEY].bets| else 0)
    ensures history[0] == second && history[1] == first
    ensures history[2..] == if HISTORY_KEY in stored then stored[HISTORY_KEY].bets else []
  {
    var repo := new UserRepository(stored);
    repo.SaveBet(first);
    repo.SaveBet(second);
    history := repo.GetBetHistory();
  }

  /** Clearing the session resets the balance to the initial grant and drops the history,
      whatever was saved before. */
  method SaveThenClear(username: string, balance: int, bet: Bet)
    returns (name: Option<string>, readBalance: int, history: seq<Bet>)
    ensures name == None && readBalance == INITIAL_BALANCE && history == []
  {
    var repo := new UserRepository(map[]);
    repo.SaveSession(username, balance);
    repo.SaveBet(bet);
    repo.ClearSession();
    name := repo.GetUsername();
    readBalance := repo.GetBalance();
    history := repo.GetBetHistory();
  }
}
