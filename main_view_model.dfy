/** The account ledger and wager engine (viewmodel/MainViewModel.kt): the in-memory session
    (user name, balance, user id), the shopping cart, wager resolution against a battle's
    predetermined winner, recharges and checkout.

    The Room database behind it is ghost state of the session object: `storedBalances` is the
    balance column of the users table (user id to balance), `betTable` the bets table in
    insertion order, `itemTable` the store items table. The in-memory `betHistory` and
    `storeItems` lists are filled from Room by Flow collectors; the model refreshes them at
    login and, for the history, after each bet. Each coroutine body runs as one step. */
module MainViewModel {
  import opened Wrappers
  import opened Int32
  import opened Battles
  import opened BetModel
  import opened LocalSession

  /** A store item as the cart holds it (model/StoreItem.kt, without the image). */
  datatype StoreItem = StoreItem(name: string, price: int)

  /** A cart line (model/CartItem.kt); `quantity` is incremented in place by `addToCart`. */
  datatype CartItem = CartItem(item: StoreItem, quantity: int)

  /** A row of the bets table (data/local/model/Bet.kt). The amounts are doubles in Room and
      always hold whole numbers here; the date column is a clock reading and is not kept. */
  datatype BetRow = BetRow(id: int, userId: int, amount: int, details: string, result: string, winnings: int)

  /** A row of the store items table (data/local/model/Item.kt). */
  datatype Item = Item(id: int, name: string, price: real, stock: int, imageName: string)

  // ----- wager resolution -----

  /** The deterministic outcome rule of `placeBet`. */
  function Resolve(battle: Battle, winnerSelected: string): (r: BetResult)
    ensures r == WIN <==> winnerSelected == battle.predictedWinner
    ensures r == LOSS <==> winnerSelected != battle.predictedWinner
  {
    if winnerSelected == battle.predictedWinner then WIN else LOSS
  }

  /** The signed change a resolved bet applies to the balance. */
  function Winnings(result: BetResult, amount: int): (w: int)
    requires result != PENDING
    ensures amount > 0 ==> (w > 0 <==> result == WIN)
    ensures w == 2 * amount || w == -amount
  {
    if result == WIN then 2 * amount else -amount
  }

  /** In a well-formed battle exactly one of the two fighters wins. */
  lemma ExactlyOneFighterWins(battle: Battle)
    requires WellFormed(battle)
    ensures Resolve(battle, battle.rapFighterA) == WIN <==> Resolve(battle, battle.rapFighterB) == LOSS
  {
  }

  /** Battle 1 is "Trueno" vs "Dani" and "Trueno" wins. */
  lemma FirstBattleOutcome()
    ensures ActiveBattles()[0].rapFighterA == "Trueno" && ActiveBattles()[0].rapFighterB == "Dani"
    ensures Resolve(ActiveBattles()[0], "Trueno") == WIN
    ensures Resolve(ActiveBattles()[0], "Dani") == LOSS
  {
  }

  /** `updateUserBalance`: an SQL UPDATE, which changes the row of that id if there is one. */
  function UpdateUserBalance(stored: map<int, int>, userId: int, newBalance: int): (r: map<int, int>)
    ensures r.Keys == stored.Keys
    ensures userId in stored ==> r[userId] == newBalance
    ensures forall id :: id in stored && id != userId ==> r[id] == stored[id]
  {
    if userId in stored then stored[userId := newBalance] else stored
  }

  /** The bets of one user, newest first (`ORDER BY date DESC`, with later insertions later). */
  function HistoryFor(table: seq<BetRow>, userId: int): (h: seq<BetRow>)
    ensures |h| <= |table|
    ensures forall k :: 0 <= k < |h| ==> h[k].userId == userId && h[k] in table
  {
    if table == [] then []
    else
      var last := table[|table| - 1];
      (if last.userId == userId then [last] else []) + HistoryFor(table[..|table| - 1], userId)
  }

  /** A bet just inserted for a user heads that user's history; other users' histories are
      unchanged. */
  lemma HistoryAfterInsert(table: seq<BetRow>, row: BetRow, userId: int)
    ensures HistoryFor(table + [row], userId)
         == if row.userId == userId then [row] + HistoryFor(table, userId) else HistoryFor(table, userId)
  {
    assert (table + [row])[..|table|] == table;
  }

  // ----- the cart -----

  function LineTotal(line: CartItem): int {
    line.item.price * line.quantity
  }

  /** Σ price × quantity over the cart, in exact arithmetic. */
  function CartTotal(cart: seq<CartItem>): (r: int)
    ensures cart == [] ==> r == 0
    ensures (forall k :: 0 <= k < |cart| ==> cart[k].item.price >= 0 && cart[k].quantity >= 0) ==> r >= 0
  {
    if cart == [] then 0 else CartTotal(cart[..|cart| - 1]) + LineTotal(cart[|cart| - 1])
  }

  predicate NamesUnique(cart: seq<CartItem>) {
    forall j, k :: 0 <= j < k < |cart| ==> cart[j].item.name != cart[k].item.name
  }

  predicate QuantitiesPositive(cart: seq<CartItem>) {
    forall k :: 0 <= k < |cart| ==> cart[k].quantity >= 1
  }

  /** The index of the first line whose item has this name, or -1 (`find`). */
  function FirstWithName(cart: seq<CartItem>, name: string): (i: int)
    ensures -1 <= i < |cart|
    ensures i >= 0 ==> cart[i].item.name == name
    ensures forall k :: 0 <= k < |cart| && (i < 0 || k < i) ==> cart[k].item.name != name
  {
    if cart == [] then -1
    else if cart[0].item.name == name then 0
    else
      var i := FirstWithName(cart[1..], name);
      if i < 0 then -1 else i + 1
  }

  /** The cart after `addToCart(item)`: an item whose name is already in the cart raises the
      first such line's quantity by one and keeps the length; any other item is appended with
      quantity 1. */
  function AddItem(cart: seq<CartItem>, item: StoreItem): (r: seq<CartItem>)
    ensures if exists k :: 0 <= k < |cart| && cart[k].item.name == item.name then
              var i := FirstWithName(cart, item.name);
              && |r| == |cart|
              && r[i] == CartItem(cart[i].item, cart[i].quantity + 1)
              && (forall k :: 0 <= k < |cart| && k != i ==> r[k] == cart[k])
            else
              r == cart + [CartItem(item, 1)]
  {
    var i := FirstWithName(cart, item.name);
    if i >= 0 then cart[i := CartItem(cart[i].item, cart[i].quantity + 1)]
    else cart + [CartItem(item, 1)]
  }

  /** The cart after `remove(cartItem)`: the first equal line, if any, is dropped. */
  function RemoveFirst(cart: seq<CartItem>, line: CartItem): (r: seq<CartItem>)
    ensures line in cart ==> |r| == |cart| - 1
    ensures line !in cart ==> r == cart
    ensures forall x :: x in r ==> x in cart
  {
    if cart == [] then []
    else if cart[0] == line then cart[1..]
    else [cart[0]] + RemoveFirst(cart[1..], line)
  }

  /** The line removed is the first one equal to `line`, and the others keep their order. */
  lemma RemoveFirstMeaning(cart: seq<CartItem>, line: CartItem)
    requires line in cart
    ensures exists i :: 0 <= i < |cart| && cart[i] == line && line !in cart[..i]
                        && RemoveFirst(cart, line) == cart[..i] + cart[i + 1..]
  {
    FirstOccurrence(cart, line);
    var i :| 0 <= i < |cart| && cart[i] == line && line !in cart[..i];
    assert cart == cart[..i] + [line] + cart[i + 1..];
    RemoveFirstAt(cart[..i], line, cart[i + 1..]);
  }

  lemma {:induction false} FirstOccurrence(cart: seq<CartItem>, line: CartItem)
    requires line in cart
    ensures exists i :: 0 <= i < |cart| && cart[i] == line && line !in cart[..i]
  {
    if cart[0] != line {
      FirstOccurrence(cart[1..], line);
      var i :| 0 <= i < |cart[1..]| && cart[1..][i] == line && line !in cart[1..][..i];
      assert cart[..i + 1] == [cart[0]] + cart[1..][..i];
    } else {
      assert cart[..0] == [];
    }
  }

  /** Removing from `pre + [line] + post`, where `pre` holds no copy of `line`, gives
      `pre + post`. */
  lemma {:induction false} RemoveFirstAt(pre: seq<CartItem>, line: CartItem, post: seq<CartItem>)
    requires line !in pre
    ensures RemoveFirst(pre + [line] + post, line) == pre + post
  {
    if pre == [] {
      assert pre + [line] + post == [line] + post;
    } else {
      assert (pre + [line] + post)[1..] == pre[1..] + [line] + post;
      RemoveFirstAt(pre[1..], line, post);
      assert pre + post == [pre[0]] + (pre[1..] + post);
    }
  }

  /** Item names in the cart stay unique, and quantities stay positive. */
  lemma AddItemKeepsInvariant(cart: seq<CartItem>, item: StoreItem)
    requires NamesUnique(cart) && QuantitiesPositive(cart)
    ensures NamesUnique(AddItem(cart, item)) && QuantitiesPositive(AddItem(cart, item))
  {
    var i := FirstWithName(cart, item.name);
    var r := AddItem(cart, item);
    if i < 0 {
      forall j, k | 0 <= j < k < |r| ensures r[j].item.name != r[k].item.name {
        if k == |cart| { assert r[k].item.name == item.name; }
      }
    }
  }

  /** Changing one line changes the total by the difference of the two line totals. */
  lemma {:induction false} CartTotalUpdate(cart: seq<CartItem>, i: nat, line: CartItem)
    requires i < |cart|
    ensures CartTotal(cart[i := line]) == CartTotal(cart) - LineTotal(cart[i]) + LineTotal(line)
  {
    var c' := cart[i := line];
    var n := |cart| - 1;
    if i < n {
      assert c'[..n] == cart[..n][i := line];
      CartTotalUpdate(cart[..n], i, line);
    } else {
      assert c'[..n] == cart[..n];
    }
  }

  /** One more unit on a line adds its price to the line total. */
  lemma LineTotalIncrement(line: CartItem)
    ensures LineTotal(CartItem(line.item, line.quantity + 1)) == LineTotal(line) + line.item.price
  {
    assert line.item.price * (line.quantity + 1) == line.item.price * line.quantity + line.item.price;
  }

  /** Adding an item raises the cart total by the price of the line it lands on. */
  lemma AddItemTotal(cart: seq<CartItem>, item: StoreItem)
    ensures var i := FirstWithName(cart, item.name);
      CartTotal(AddItem(cart, item)) == CartTotal(cart) + (if i >= 0 then cart[i].item.price else item.price)
  {
    var i := FirstWithName(cart, item.name);
    if i >= 0 {
      var line := CartItem(cart[i].item, cart[i].quantity + 1);
      assert AddItem(cart, item) == cart[i := line];
      CartTotalUpdate(cart, i, line);
      LineTotalIncrement(cart[i]);
    } else {
      var added := cart + [CartItem(item, 1)];
      assert AddItem(cart, item) == added;
      assert added[..|cart|] == cart;
    }
  }

  /** Removing a line keeps names unique and quantities positive. */
  lemma {:induction false} RemoveFirstKeepsInvariant(cart: seq<CartItem>, line: CartItem)
    requires NamesUnique(cart) && QuantitiesPositive(cart)
    ensures NamesUnique(RemoveFirst(cart, line)) && QuantitiesPositive(RemoveFirst(cart, line))
  {
    if cart != [] && cart[0] != line {
      RemoveFirstKeepsInvariant(cart[1..], line);
      var rest := RemoveFirst(cart[1..], line);
      forall k | 0 <= k < |rest| ensures rest[k].item.name != cart[0].item.name {
        assert rest[k] in cart[1..];
      }
    }
  }

  /** Removing a line of a cart with unique names leaves no line of that item. */
  lemma RemoveFirstDropsName(cart: seq<CartItem>, line: CartItem)
    requires NamesUnique(cart) && line in cart
    ensures forall x :: x in RemoveFirst(cart, line) ==> x.item.name != line.item.name
  {
    if cart[0] != line {
      assert line in cart[1..];
      assert NamesUnique(cart[1..]);
      RemoveFirstDropsName(cart[1..], line);
    } else {
      forall x | x in cart[1..] ensures x.item.name != line.item.name {
        var k :| 0 <= k < |cart[1..]| && cart[1..][k] == x;
        assert cart[k + 1] == x;
      }
    }
  }

  /** The cart total as Kotlin's `sumOf { it.item.price * it.quantity }` computes it, with
      `Int` wrap-around on every product and sum. */
  method SumCart(cart: seq<CartItem>) returns (total: int)
    ensures total == Wrap(CartTotal(cart))
  {
    total := 0;
    var i := 0;
    while i < |cart|
      invariant 0 <= i <= |cart|
      invariant total == Wrap(CartTotal(cart[..i]))
    {
      var line := cart[i];
      WrapAdd(CartTotal(cart[..i]), LineTotal(line));
      assert cart[..i + 1][..i] == cart[..i];
      total := Wrap(total + Wrap(line.item.price * line.quantity));
      i := i + 1;
    }
    assert cart[..i] == cart;
  }

  /** The cart line search of `addToCart` (`find`): the loop form of `FirstWithName`. */
  method FindInCart(cart: seq<CartItem>, name: string) returns (i: int)
    ensures -1 <= i < |cart|
    ensures i >= 0 ==> cart[i].item.name == name && forall k :: 0 <= k < i ==> cart[k].item.name != name
    ensures i < 0 ==> forall k :: 0 <= k < |cart| ==> cart[k].item.name != name
  {
    i := 0;
    while i < |cart|
      invariant 0 <= i <= |cart|
      invariant forall k :: 0 <= k < i ==> cart[k].item.name != name
    {
      if cart[i].item.name == name {
        return;
      }
      i := i + 1;
    }
    i := -1;
  }

  /** Within the `Int` range, the checkout debit is exact and leaves a non-negative balance. */
  lemma CheckoutDebitExact(balance: int, total: int)
    requires InRange(balance) && 0 <= total <= balance
    ensures Wrap(total) == total
    ensures Wrap(balance - Wrap(total)) == balance - total >= 0
  {
  }

  // ----- the view model -----

  class Session {
    var username: string
    var balance: int
    var userId: int
    var cartItems: seq<CartItem>
    const sessionManager: SessionManager

    ghost var storedBalances: map<int, int>
    ghost var betTable: seq<BetRow>
    ghost var itemTable: seq<Item>
    ghost var betHistory: seq<BetRow>
    ghost var storeItems: seq<Item>

    ghost predicate Valid()
      reads this, sessionManager
    {
      && InRange(balance)
      && InRange(userId)
      && NamesUnique(cartItems)
      && QuantitiesPositive(cartItems)
      && sessionManager.Valid()
    }

    /** A fresh view model: logged out, empty cart, over the given database contents. The
        startup session restore is not part of this model. */
    constructor (sessionManager: SessionManager, ghost storedBalances: map<int, int>,
                 ghost betTable: seq<BetRow>, ghost itemTable: seq<Item>)
      requires sessionManager.Valid()
      ensures Valid()
      ensures this.sessionManager == sessionManager
      ensures username == "" && balance == 0 && userId == 0 && cartItems == []
      ensures betHistory == [] && storeItems == []
      ensures this.storedBalances == storedBalances && this.betTable == betTable && this.itemTable == itemTable
    {
      this.sessionManager := sessionManager;
      username, balance, userId, cartItems := "", 0, 0, [];
      this.storedBalances, this.betTable, this.itemTable := storedBalances, betTable, itemTable;
      betHistory, storeItems := [], [];
    }

    /** `isUserLoggedIn`: a session exists exactly when the user name is non-empty. */
    method IsUserLoggedIn() returns (r: bool)
      ensures r <==> username != ""
    {
      r := |username| > 0;
    }

    /** `loginSuccess`: binds the session to the user, saves the id, and loads that user's
        bets and the store items. */
    method LoginSuccess(loggedInUsername: string, loggedInBalance: int, loggedInUserId: int)
      requires Valid() && InRange(loggedInBalance) && InRange(loggedInUserId)
      modifies this, sessionManager
      ensures Valid()
      ensures username == loggedInUsername && balance == loggedInBalance && userId == loggedInUserId
      ensures sessionManager.UserId() == if loggedInUserId == NO_SESSION then None else Some(loggedInUserId)
      ensures betHistory == HistoryFor(betTable, loggedInUserId) && storeItems == itemTable
      ensures cartItems == old(cartItems)
      ensures storedBalances == old(storedBalances) && betTable == old(betTable) && itemTable == old(itemTable)
    {
      username := loggedInUsername;
      balance := loggedInBalance;
      userId := loggedInUserId;
      sessionManager.SaveSession(loggedInUserId);
      betHistory := HistoryFor(betTable, userId);
      storeItems := itemTable;
    }

    /** `logout`: clears the saved session and the in-memory session, history and store
        items; the cart is kept and the database is untouched. */
    method Logout()
      requires Valid()
      modifies this, sessionManager
      ensures Valid()
      ensures sessionManager.UserId() == None
      ensures username == "" && balance == 0 && userId == 0
      ensures betHistory == [] && storeItems == []
      ensures cartItems == old(cartItems)
      ensures storedBalances == old(storedBalances) && betTable == old(betTable) && itemTable == old(itemTable)
    {
      sessionManager.ClearSession();
      username := "";
      balance := 0;
      userId := 0;
      betHistory := [];
      storeItems := [];
    }

    /** `rechargeBalance`: a non-positive amount is refused with nothing changed; otherwise the
        `Int` sum becomes the balance, in memory and in the user's row. */
    method RechargeBalance(amount: int) returns (ok: bool)
      requires Valid() && InRange(amount)
      modifies this
      ensures Valid()
      ensures ok <==> amount > 0
      ensures ok ==> (balance == Wrap(old(balance) + amount)
                      && storedBalances == UpdateUserBalance(old(storedBalances), userId, balance))
      ensures !ok ==> balance == old(balance) && storedBalances == old(storedBalances)
      ensures ok && old(balance) + amount <= INT_MAX ==> balance == old(balance) + amount
      ensures username == old(username) && userId == old(userId) && cartItems == old(cartItems)
      ensures betTable == old(betTable) && betHistory == old(betHistory)
      ensures itemTable == old(itemTable) && storeItems == old(storeItems)
    {
      if amount <= 0 {
        return false;
      }
      var newBalance := Wrap(balance + amount);
      storedBalances := UpdateUserBalance(storedBalances, userId, newBalance);
      balance := newBalance;
      ok := true;
    }

    /** `placeBet`: resolves the bet against the battle's winner, credits twice the stake on a
        win and debits the stake on a loss, persists the exact new balance, stores the `Int`
        conversion of it in memory, and inserts one bet row. */
    method PlaceBet(battle: Battle, winnerSelected: string, amount: int) returns (result: BetResult)
      requires Valid() && InRange(amount)
      modifies this
      ensures Valid()
      ensures result == Resolve(battle, winnerSelected)
      ensures balance == Saturate(old(balance) + Winnings(result, amount))
      ensures storedBalances == UpdateUserBalance(old(storedBalances), userId, old(balance) + Winnings(result, amount))
      ensures InRange(old(balance) + Winnings(result, amount)) ==>
                balance == old(balance) + Winnings(result, amount)
                && (userId in storedBalances ==> storedBalances[userId] == balance)
      ensures betTable == old(betTable) + [BetRow(|old(betTable)| + 1, userId, amount,
                battle.rapFighterA + " vs " + battle.rapFighterB, ResultName(result), Winnings(result, amount))]
      ensures betHistory == HistoryFor(betTable, userId)
      ensures username == old(username) && userId == old(userId) && cartItems == old(cartItems)
      ensures itemTable == old(itemTable) && storeItems == old(storeItems)
    {
      result := if winnerSelected == battle.predictedWinner then WIN else LOSS;
      var finalWinnings := if result == WIN then amount * 2 else -amount;
      var newBalance := balance + finalWinnings;
      storedBalances := UpdateUserBalance(storedBalances, userId, newBalance);
      balance := Saturate(newBalance);
      var newBet := BetRow(|betTable| + 1, userId, amount,
                           battle.rapFighterA + " vs " + battle.rapFighterB, ResultName(result), finalWinnings);
      betTable := betTable + [newBet];
      betHistory := HistoryFor(betTable, userId);
    }

    /** `addToCart`. */
    method AddToCart(item: StoreItem)
      requires Valid()
      modifies this
      ensures Valid()
      ensures cartItems == AddItem(old(cartItems), item)
      ensures username == old(username) && balance == old(balance) && userId == old(userId)
      ensures storedBalances == old(storedBalances) && betTable == old(betTable) && betHistory == old(betHistory)
      ensures itemTable == old(itemTable) && storeItems == old(storeItems)
    {
      AddItemKeepsInvariant(cartItems, item);
      var existing := FindInCart(cartItems, item.name);
      if existing >= 0 {
        cartItems := cartItems[existing := CartItem(cartItems[existing].item, cartItems[existing].quantity + 1)];
      } else {
        cartItems := cartItems + [CartItem(item, 1)];
      }
    }

    /** `removeFromCart`. */
    method RemoveFromCart(cartItem: CartItem)
      requires Valid()
      modifies this
      ensures Valid()
      ensures cartItems == RemoveFirst(old(cartItems), cartItem)
      ensures cartItem in old(cartItems) ==> forall x :: x in cartItems ==> x.item.name != cartItem.item.name
      ensures username == old(username) && balance == old(balance) && userId == old(userId)
      ensures storedBalances == old(storedBalances) && betTable == old(betTable) && betHistory == old(betHistory)
      ensures itemTable == old(itemTable) && storeItems == old(storeItems)
    {
      RemoveFirstKeepsInvariant(cartItems, cartItem);
      if cartItem in cartItems {
        RemoveFirstDropsName(cartItems, cartItem);
      }
      cartItems := RemoveFirst(cartItems, cartItem);
    }

    /** `clearCart`. */
    method ClearCart()
      requires Valid()
      modifies this
      ensures Valid()
      ensures cartItems == []
      ensures username == old(username) && balance == old(balance) && userId == old(userId)
      ensures storedBalances == old(storedBalances) && betTable == old(betTable) && betHistory == old(betHistory)
      ensures itemTable == old(itemTable) && storeItems == old(storeItems)
    {
      cartItems := [];
    }

    /** `checkout`: when the balance covers the `Int` cart total, debits it, persists the new
        balance and empties the cart; otherwise changes nothing. */
    method Checkout() returns (ok: bool)
      requires Valid()
      modifies this
      ensures Valid()
      ensures ok <==> old(balance) >= Wrap(CartTotal(old(cartItems)))
      ensures ok ==> (balance == Wrap(old(balance) - Wrap(CartTotal(old(cartItems))))
                      && cartItems == []
                      && storedBalances == UpdateUserBalance(old(storedBalances), userId, balance))
      ensures !ok ==> balance == old(balance) && cartItems == old(cartItems) && storedBalances == old(storedBalances)
      ensures 0 <= CartTotal(old(cartItems)) <= old(balance) ==>
                ok && balance == old(balance) - CartTotal(old(cartItems)) >= 0
      ensures username == old(username) && userId == old(userId)
      ensures betTable == old(betTable) && betHistory == old(betHistory)
      ensures itemTable == old(itemTable) && storeItems == old(storeItems)
    {
      var totalCost := SumCart(cartItems);
      if balance >= totalCost {
        if 0 <= CartTotal(cartItems) <= balance {
          CheckoutDebitExact(balance, CartTotal(cartItems));
        }
        var newBalance := Wrap(balance - totalCost);
        storedBalances := UpdateUserBalance(storedBalances, userId, newBalance);
        balance := newBalance;
        ClearCart();
        return true;
      }
      return false;
    }
  }

  /** The recharge of MainViewModelTest: logged in with 1000, a recharge of 500 succeeds and
      leaves 1500, in memory and in the user's row. */
  method RechargeAfterLogin() returns (ok: bool, balance: int)
    ensures ok && balance == 1500
  {
    var sm := new SessionManager(map[]);
    var vm := new Session(sm, map[1 := 1000], [], []);
    vm.LoginSuccess("testUser", 1000, 1);
    ok := vm.RechargeBalance(500);
    balance := vm.balance;
    assert vm.storedBalances[1] == balance;
  }

  /** Bets on battle 1 from a balance of 1000 with a stake of 200: picking "Trueno" wins and
      credits 400, picking "Dani" loses and debits 200; either way one bet row is written. */
  method BetOnFirstBattle(pick: string) returns (result: BetResult, balance: int)
    requires pick == "Trueno" || pick == "Dani"
    ensures pick == "Trueno" ==> result == WIN && balance == 1400
    ensures pick == "Dani" ==> result == LOSS && balance == 800
  {
    var sm := new SessionManager(map[]);
    var vm := new Session(sm, map[7 := 1000], [], []);
    vm.LoginSuccess("samuel", 1000, 7);
    result := vm.PlaceBet(ActiveBattles()[0], pick, 200);
    balance := vm.balance;
    assert |vm.betTable| == 1 && vm.betTable[0].winnings == balance - 1000;
  }
}
