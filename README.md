# Barzarena: a verified model of the account ledger and wager engine

Barzarena is an Android app in which a user registers and logs in, then bets play money on
rap battles that have a predetermined winner. The user can also recharge the balance and
spend it in a small store. This project models the app's core in Dafny:

- **`MainViewModel`** (`main_view_model.dfy`) is the session. It holds the user name, the
  `Int` balance, the user id and the shopping cart. It:
  - resolves a wager against the battle's predetermined winner;
  - credits twice the stake on a win and debits the stake on a loss;
  - handles recharges;
  - computes the cart total and checks out.

  The class `Session` has these as fields. The Room tables it writes are ghost fields:
  - the users table's balance column;
  - the bets table;
  - the items table.
- **`AuthViewModel`** (`auth_view_model.dfy`) handles registration against the local user
  table. The uniqueness checks, the modulo-11 RUT check, the date parse and the age check
  run in the source's order, with the age computed by the source's day-of-year rule. It also handles login by user name and password hash.
- **`RegisterScreen`** (`register_screen.dfy`) holds the register button's form checks and
  the call they guard.
- **`AppNavigation`** (`app_navigation.dfy`) holds:
  - the older dash-based RUT validator `isValidRUT`;
  - the `YYYY-MM-DD` shape check of `isOlderThan18`;
  - the click guards of the login, bet, recharge and purchase buttons.
- **`LocalSession`** (`session_manager.dfy`) is the saved-session preferences file.
- **`PrefsRepository`** (`prefs_repository.dfy`) is the SharedPreferences user repository:
  a name, a balance and a newest-first bet history.
- **Shared modules:**
  - `Battles`: the three active battles.
  - `BetModel`: the wager record.
  - `RutChecksum`: the modulo-11 check digit shared by both RUT validators.
  - `Int32`: Kotlin `Int` wrap-around and the saturating `Double.toInt()`.
  - `KotlinText`: `trim`, `split`, `toIntOrNull`, `filter { isDigit() }`, character removal
    and letter case.
  - `Wrappers`: `Option`.

Three behaviours of the code worth noting:

- `placeBet` credits `2 × amount` on a win. The balance therefore grows by twice the stake,
  not by the stake.
- `placeBet` itself checks neither the balance nor the selection. Those checks live only in
  the bet button, which is modelled by `AppNavigation.BetClick`.
- A win of 200 on a balance of 1000 ends at 1400 (`MainViewModel.BetOnFirstBattle`).

Source paths in the table below are relative to the repository root.

## Model

| member | source | states |
|---|---|---|
| Int32.Wrap | app/src/main/java/cl/samuel/barzarena/viewmodel/MainViewModel.kt:147 | An `Int` sum is the exact sum brought into [-2^31, 2^31-1]. It is the identity in range and congruent to the exact value modulo 2^32. |
| Int32.Saturate | app/src/main/java/cl/samuel/barzarena/viewmodel/MainViewModel.kt:166 | `Double.toInt()` of a whole number: exact in range, clamped to `Int.MAX_VALUE` / `Int.MIN_VALUE` outside it. |
| Int32.WrapAdd | app/src/main/java/cl/samuel/barzarena/viewmodel/MainViewModel.kt:206 | Wrapping the operands of `+` first does not change the `Int` result. This lets the running `sumOf` wrap at every step. |
| Int32.WrapMul | app/src/main/java/cl/samuel/barzarena/viewmodel/MainViewModel.kt:206 | The same for `*` (`price * quantity`). |
| KotlinText.TrimStart | app/src/main/java/cl/samuel/barzarena/ui/auth/RegisterScreen.kt:110 | The leading-whitespace half of `trim()`. It returns a suffix of the input that is not headed by whitespace; what it drops is blank. |
| KotlinText.TrimEnd | app/src/main/java/cl/samuel/barzarena/ui/auth/RegisterScreen.kt:110 | The trailing half: a prefix not ending in whitespace, and what it drops is blank. |
| KotlinText.TrimEmptyIffBlank | app/src/main/java/cl/samuel/barzarena/ui/auth/RegisterScreen.kt:110 | `s.trim().isEmpty()` holds exactly when `s` is blank, in both directions. |
| KotlinText.TrimIdempotent | app/src/main/java/cl/samuel/barzarena/ui/auth/RegisterScreen.kt:124-129 | Trimming an already trimmed field changes nothing. |
| KotlinText.TrimPadded | app/src/main/java/cl/samuel/barzarena/ui/AppNavigation.kt:248-249 | Trimming undoes any blank padding around text that starts and ends with a non-blank. |
| KotlinText.UpperCase | app/src/main/java/cl/samuel/barzarena/ui/auth/AuthViewModel.kt:111 | `uppercase()` keeps the length and maps every character. |
| KotlinText.LowerCase | app/src/main/java/cl/samuel/barzarena/ui/AppNavigation.kt:248 | `lowercase(Locale.ROOT)` keeps the length and maps every character. |
| KotlinText.RemoveAll | app/src/main/java/cl/samuel/barzarena/ui/auth/AuthViewModel.kt:111 | Replacing characters by nothing leaves none of them and never lengthens the text. |
| KotlinText.RemoveAllMembers | app/src/main/java/cl/samuel/barzarena/ui/auth/AuthViewModel.kt:111 | A character occurs in the result exactly when it occurs in the input and is not one of those removed. |
| KotlinText.RemoveAllConcat | app/src/main/java/cl/samuel/barzarena/ui/AppNavigation.kt:161 | Character removal distributes over concatenation. |
| KotlinText.RemoveAllKeepsDigits | app/src/main/java/cl/samuel/barzarena/ui/auth/AuthViewModel.kt:111 | Removing punctuation leaves a run of digits unchanged. |
| KotlinText.KeepDigits | app/src/main/java/cl/samuel/barzarena/ui/AppNavigation.kt:582 | `filter { it.isDigit() }` keeps exactly the input's digits: a character is in the result exactly when it is a digit of the input. A single character survives exactly when it is a digit, so with `KeepDigitsConcat` the order is kept too. The result is never longer than the input, and an all-digit input is left alone. |
| KotlinText.Split | app/src/main/java/cl/samuel/barzarena/ui/AppNavigation.kt:163 | `split` on one character gives one more piece than there are separators, and no piece contains the separator. |
| KotlinText.SplitConcat | app/src/main/java/cl/samuel/barzarena/ui/AppNavigation.kt:147 | Splitting `a + sep + b` gives the pieces of `a` followed by those of `b`. |
| KotlinText.SplitOnce | app/src/main/java/cl/samuel/barzarena/ui/AppNavigation.kt:163-166 | A string with exactly one separator splits into the text before it and the text after it. |
| KotlinText.ToIntOrNull | app/src/main/java/cl/samuel/barzarena/ui/AppNavigation.kt:558 | `toIntOrNull()` yields a value only for an optional sign followed by at least one digit (never for a sign alone), and only in the `Int` range. Every such string parses: digits, `+digits` and `-digits` give their value, or the negated value, exactly when it fits an `Int`. |
| KotlinText.Utf16Length | app/src/main/java/cl/samuel/barzarena/ui/auth/RegisterScreen.kt:114 | `String.length` counts UTF-16 code units. It lies between the number of characters and twice that, and it equals the number of characters exactly when none lies beyond U+FFFF. |
| KotlinText.Utf16LengthConcat | app/src/main/java/cl/samuel/barzarena/ui/AppNavigation.kt:146 | The UTF-16 length of a concatenation is the sum of the lengths. |
| KotlinText.DigitsUtf16Length | app/src/main/java/cl/samuel/barzarena/ui/AppNavigation.kt:146 | A string of digits is one code unit per character. |
| KotlinText.DigitsToIntOrZero | app/src/main/java/cl/samuel/barzarena/ui/AppNavigation.kt:558 | `toIntOrNull() ?: 0` on a digit field is the field's value when that fits an `Int`, and 0 otherwise (the empty field included). |
| RutChecksum.Weight | app/src/main/java/cl/samuel/barzarena/ui/auth/AuthViewModel.kt:119-122 | The digit weights lie in 2..7. |
| RutChecksum.WeightNext | app/src/main/java/cl/samuel/barzarena/ui/auth/AuthViewModel.kt:122 | The multiplier steps 2, 3, …, 7 and then back to 2, matching `if (multiple == 7) 2 else multiple + 1`. |
| RutChecksum.WeightedSum | app/src/main/java/cl/samuel/barzarena/ui/auth/AuthViewModel.kt:118-123 | The sum of each digit times its weight, counted from the last digit. Each digit adds at most 9 × 7 = 63, which bounds the sum by 63 per digit. |
| RutChecksum.WeightedSumZero | app/src/main/java/cl/samuel/barzarena/ui/auth/AuthViewModel.kt:118-123 | Every weight is positive, so the sum is 0 exactly when every digit is 0. |
| RutChecksum.CheckChar | app/src/main/java/cl/samuel/barzarena/ui/auth/AuthViewModel.kt:124-128 | `11 - sum % 11` written as '0' for 11 and 'K' for 10. The result is 'K' exactly when sum ≡ 1 and '0' exactly when sum ≡ 0 (mod 11). |
| RutChecksum.CheckDigit | app/src/main/java/cl/samuel/barzarena/ui/auth/AuthViewModel.kt:118-129 | A body's check digit is a digit or 'K'. It is 'K' exactly when the weighted sum is 1 modulo 11, and '0' exactly when it is 0 modulo 11. |
| RutChecksum.CheckCharInjective | app/src/main/java/cl/samuel/barzarena/ui/auth/AuthViewModel.kt:124-129 | Two sums give the same check character exactly when they agree modulo 11. |
| RutChecksum.WeightedSumUpdate | app/src/main/java/cl/samuel/barzarena/ui/auth/AuthViewModel.kt:120-123 | Replacing one body digit changes the sum by the digit difference times that position's weight. |
| RutChecksum.SubstitutionDetected | app/src/main/java/cl/samuel/barzarena/ui/auth/AuthViewModel.kt:114-129 | Every single-digit substitution in the body changes the check digit, so the check detects it. |
| Battles.ActiveBattles | app/src/main/java/cl/samuel/barzarena/model/Battle.kt:18-22 | Three battles with ids 1, 2 and 3. Each has two different fighters, one of whom is the predetermined winner. |
| Battles.ActiveBattleIdsDistinct | app/src/main/java/cl/samuel/barzarena/model/Battle.kt:18-22 | The ids of the active battles are pairwise distinct. |
| LocalSession.SessionManager.constructor | app/src/main/java/cl/samuel/barzarena/data/local/SessionManager.kt:7-9 | Opens the preferences file with what an earlier run stored, so a saved session reads back as that id. The -1 sentinel or no entry reads as no session. |
| LocalSession.SessionManager.SaveSession | app/src/main/java/cl/samuel/barzarena/data/local/SessionManager.kt:16-20 | Stores the id, replacing any earlier one. Saving -1 reads back as no session. |
| LocalSession.SessionManager.GetUserId | app/src/main/java/cl/samuel/barzarena/data/local/SessionManager.kt:22-25 | The stored id, or null when there is none or it is the -1 sentinel, in both directions. |
| LocalSession.SessionManager.ClearSession | app/src/main/java/cl/samuel/barzarena/data/local/SessionManager.kt:27-31 | Removes the id, after which no session is reported. |
| LocalSession.SaveOverwrites | app/src/main/java/cl/samuel/barzarena/data/local/SessionManager.kt:16-25 | Whatever the file held before, two saves read back as the second one, or as no session when that one is -1. |
| LocalSession.SaveThenClear | app/src/main/java/cl/samuel/barzarena/data/local/SessionManager.kt:16-31 | Whatever the file held before, a session saved and then cleared reads back as no session. |
| PrefsRepository.UserRepository.constructor | app/src/main/java/cl/samuel/barzarena/repository/UserRepository.kt:10-18 | Opens the preferences file with whatever it already holds. |
| PrefsRepository.UserRepository.GetUsername | app/src/main/java/cl/samuel/barzarena/repository/UserRepository.kt:21 | The stored name, or null exactly when none is stored. |
| PrefsRepository.UserRepository.GetBalance | app/src/main/java/cl/samuel/barzarena/repository/UserRepository.kt:16-22 | The stored balance, or 50000 when none is stored. |
| PrefsRepository.UserRepository.SaveSession | app/src/main/java/cl/samuel/barzarena/repository/UserRepository.kt:24-30 | Writes the name and the balance; the history is unchanged. |
| PrefsRepository.UserRepository.ClearSession | app/src/main/java/cl/samuel/barzarena/repository/UserRepository.kt:32-37 | `clear()` empties the whole file. Afterwards there is no name, the balance reads 50000 and the history is empty. |
| PrefsRepository.UserRepository.GetBetHistory | app/src/main/java/cl/samuel/barzarena/repository/UserRepository.kt:41-50 | The stored history, or the empty list when none is stored. |
| PrefsRepository.UserRepository.SaveBet | app/src/main/java/cl/samuel/barzarena/repository/UserRepository.kt:52-58 | The new bet is put ahead of the old history. The name and the balance are unchanged. |
| PrefsRepository.ReadEmpty | app/src/main/java/cl/samuel/barzarena/repository/UserRepository.kt:21-50 | A fresh file reads back as no user, a balance of 50000 and no bets. |
| PrefsRepository.SaveTwoBets | app/src/main/java/cl/samuel/barzarena/repository/UserRepository.kt:52-58 | Two saves read back newest first, ahead of the history stored before. |
| PrefsRepository.SaveThenClear | app/src/main/java/cl/samuel/barzarena/repository/UserRepository.kt:24-50 | Clearing after saving a session and a bet resets the name, the balance and the history. |
| MainViewModel.Resolve | app/src/main/java/cl/samuel/barzarena/viewmodel/MainViewModel.kt:160 | WIN exactly when the selection equals the predetermined winner, and LOSS exactly otherwise. |
| MainViewModel.Winnings | app/src/main/java/cl/samuel/barzarena/viewmodel/MainViewModel.kt:161 | The signed change is either `2 × amount` or `-amount`. For a positive stake it is positive exactly on a win. |
| MainViewModel.ExactlyOneFighterWins | app/src/main/java/cl/samuel/barzarena/viewmodel/MainViewModel.kt:160 | In a well-formed battle, picking fighter A wins exactly when picking fighter B loses. |
| MainViewModel.FirstBattleOutcome | app/src/main/java/cl/samuel/barzarena/model/Battle.kt:19 | Battle 1 is Trueno vs Dani. "Trueno" wins it and "Dani" loses it. |
| MainViewModel.UpdateUserBalance | app/src/main/java/cl/samuel/barzarena/data/local/dao/UserDao.kt:36-37 | `UPDATE users SET balance … WHERE id`. It keeps the set of rows, sets the balance of that id if the row exists, and leaves every other row alone. |
| MainViewModel.HistoryFor | app/src/main/java/cl/samuel/barzarena/data/local/dao/BetDao.kt:24-25 | A user's history holds only that user's rows from the bets table. |
| MainViewModel.HistoryAfterInsert | app/src/main/java/cl/samuel/barzarena/data/local/dao/BetDao.kt:24-25 | A bet just inserted heads its user's history (newest first). Other users' histories are unchanged. |
| MainViewModel.FirstWithName | app/src/main/java/cl/samuel/barzarena/viewmodel/MainViewModel.kt:189 | `find { it.item.name == name }`: the first line with that name, or -1 when no line has it. |
| MainViewModel.FindInCart | app/src/main/java/cl/samuel/barzarena/viewmodel/MainViewModel.kt:189 | The loop form of `FirstWithName`, standing for `find`. It is proved to return the first match, or -1 exactly when none exists. |
| MainViewModel.CartTotal | app/src/main/java/cl/samuel/barzarena/viewmodel/MainViewModel.kt:206 | The exact cart total: 0 for an empty cart, and never negative when prices and quantities are not. |
| MainViewModel.AddItem | app/src/main/java/cl/samuel/barzarena/viewmodel/MainViewModel.kt:188-195 | `addToCart`: an item whose name is in the cart raises the first such line's quantity by one and leaves every other line and the length alone. Any other item is appended with quantity 1. |
| MainViewModel.AddItemKeepsInvariant | app/src/main/java/cl/samuel/barzarena/viewmodel/MainViewModel.kt:188-195 | Adding keeps item names unique and quantities positive. |
| MainViewModel.CartTotalUpdate | app/src/main/java/cl/samuel/barzarena/viewmodel/MainViewModel.kt:206 | Changing one line changes the exact total by the difference of the line totals. |
| MainViewModel.LineTotalIncrement | app/src/main/java/cl/samuel/barzarena/viewmodel/MainViewModel.kt:190-191 | One more unit on a line raises its total by the item's price. |
| MainViewModel.AddItemTotal | app/src/main/java/cl/samuel/barzarena/viewmodel/MainViewModel.kt:188-195 | Adding an item raises the exact cart total by the price of the line it lands on. |
| MainViewModel.RemoveFirst | app/src/main/java/cl/samuel/barzarena/viewmodel/MainViewModel.kt:198 | `remove(cartItem)`: one line shorter when the line is present, unchanged when it is absent, and no new lines. |
| MainViewModel.RemoveFirstMeaning | app/src/main/java/cl/samuel/barzarena/viewmodel/MainViewModel.kt:198 | The line dropped is the first one equal to the argument, and the lines before and after it keep their order. |
| MainViewModel.RemoveFirstAt | app/src/main/java/cl/samuel/barzarena/viewmodel/MainViewModel.kt:198 | Removing from `pre + [line] + post`, with no copy of `line` in `pre`, gives `pre + post`. |
| MainViewModel.RemoveFirstKeepsInvariant | app/src/main/java/cl/samuel/barzarena/viewmodel/MainViewModel.kt:197-199 | Removing keeps item names unique and quantities positive. |
| MainViewModel.RemoveFirstDropsName | app/src/main/java/cl/samuel/barzarena/viewmodel/MainViewModel.kt:197-199 | In a cart with unique names, removing a present line leaves no line of that item. |
| MainViewModel.SumCart | app/src/main/java/cl/samuel/barzarena/viewmodel/MainViewModel.kt:206 | `sumOf { price * quantity }` with `Int` arithmetic equals the exact cart total, wrapped once. |
| MainViewModel.CheckoutDebitExact | app/src/main/java/cl/samuel/barzarena/viewmodel/MainViewModel.kt:207-208 | Within the `Int` range, a covered total is debited exactly and leaves a non-negative balance. |
| MainViewModel.Session.constructor | app/src/main/java/cl/samuel/barzarena/viewmodel/MainViewModel.kt:89-112 | A fresh view model is logged out with an empty cart, over the given database contents. |
| MainViewModel.Session.IsUserLoggedIn | app/src/main/java/cl/samuel/barzarena/viewmodel/MainViewModel.kt:89-91 | Logged in exactly when the user name is non-empty. |
| MainViewModel.Session.LoginSuccess | app/src/main/java/cl/samuel/barzarena/viewmodel/MainViewModel.kt:93-126 | Binds the name, balance and id, and saves the id as the session. Loads that user's bet history and the store items; the cart and the database are unchanged. |
| MainViewModel.Session.Logout | app/src/main/java/cl/samuel/barzarena/viewmodel/MainViewModel.kt:102-112 | Clears the saved session, the name, the balance, the id, the history and the store items. The cart and the database are kept. |
| MainViewModel.Session.RechargeBalance | app/src/main/java/cl/samuel/barzarena/viewmodel/MainViewModel.kt:139-153 | Succeeds exactly for a positive amount. On success the wrapped `Int` sum becomes the balance in memory and in the user's row, and equals the exact sum when that fits. On failure nothing changes. |
| MainViewModel.Session.PlaceBet | app/src/main/java/cl/samuel/barzarena/viewmodel/MainViewModel.kt:155-181 | Returns the resolved outcome and persists `balance + winnings` exactly. Memory holds its saturated `Int`, equal to the row when in range. Appends one bet row (stake, "A vs B", result name, signed winnings) and refreshes the user's history. |
| MainViewModel.Session.AddToCart | app/src/main/java/cl/samuel/barzarena/viewmodel/MainViewModel.kt:188-195 | The cart becomes `AddItem` of the old cart. The cart invariant is kept and nothing else changes. |
| MainViewModel.Session.RemoveFromCart | app/src/main/java/cl/samuel/barzarena/viewmodel/MainViewModel.kt:197-199 | The first equal line is removed; no line of that item remains. The invariant is kept and nothing else changes. |
| MainViewModel.Session.ClearCart | app/src/main/java/cl/samuel/barzarena/viewmodel/MainViewModel.kt:201-203 | The cart is empty and nothing else changes. |
| MainViewModel.Session.Checkout | app/src/main/java/cl/samuel/barzarena/viewmodel/MainViewModel.kt:205-218 | Succeeds exactly when the balance covers the `Int` cart total. It then debits that total, persists the balance and empties the cart; otherwise nothing changes. A covered exact total leaves `balance - total >= 0`. |
| MainViewModel.RechargeAfterLogin | app/src/test/java/cl/samuel/barzarena/viewmodel/MainViewModelTest.kt:62-85 | Logged in with 1000, a recharge of 500 succeeds and leaves 1500. |
| MainViewModel.BetOnFirstBattle | app/src/main/java/cl/samuel/barzarena/viewmodel/MainViewModel.kt:155-181 | From 1000 with a stake of 200 on battle 1: "Trueno" wins and leaves 1400, "Dani" loses and leaves 800. |
| AuthViewModel.DaysInMonth | app/src/main/java/cl/samuel/barzarena/ui/auth/AuthViewModel.kt:69-71 | Months have 28 to 31 days. |
| AuthViewModel.DaysBeforeGrows | app/src/main/java/cl/samuel/barzarena/ui/auth/AuthViewModel.kt:85 | In the same kind of year, a later month starts after the end of an earlier one. |
| AuthViewModel.DayOfYearOrder | app/src/main/java/cl/samuel/barzarena/ui/auth/AuthViewModel.kt:85 | Within years of the same leap-ness, `DAY_OF_YEAR` orders dates exactly as (month, day) does. |
| AuthViewModel.AgeByDayOfYear | app/src/main/java/cl/samuel/barzarena/ui/auth/AuthViewModel.kt:84-87 | The age as registration computes it: the difference of the years, or one less. In years of the same leap-ness it is the full difference exactly when the birthday's (month, day) has come. |
| AuthViewModel.AgeInYears | app/src/main/java/cl/samuel/barzarena/ui/auth/AuthViewModel.kt:84-89 | The age in completed years: the birth date moved that many years forward is on or before today, and one year more is not. |
| AuthViewModel.AgeInYearsMeaning | app/src/main/java/cl/samuel/barzarena/ui/auth/AuthViewModel.kt:84-89 | The age is at least n exactly when today is on or after the birth date moved n years forward. |
| AuthViewModel.AgeRulesAgree | app/src/main/java/cl/samuel/barzarena/ui/auth/AuthViewModel.kt:84-87 | The day-of-year age rule and the completed-years rule agree when the birth year and the current year have the same leap-ness. |
| AuthViewModel.AgeByDayOfYearMissesBirthday | app/src/main/java/cl/samuel/barzarena/ui/auth/AuthViewModel.kt:84-87 | Born on 1 March 2008, on 1 March 2026 the written rule gives 17 where the completed-years age is 18. |
| AuthViewModel.FindByUserName | app/src/main/java/cl/samuel/barzarena/data/local/dao/UserDao.kt:24-25 | `getUserByUsername(...).firstOrNull()`: a row of that name, or null exactly when no row has it. |
| AuthViewModel.FindAppended | app/src/main/java/cl/samuel/barzarena/ui/auth/AuthViewModel.kt:105 | After inserting a user with a fresh name, looking that name up finds the new row. |
| AuthViewModel.ReversedWeightedSum | app/src/main/java/cl/samuel/barzarena/ui/auth/AuthViewModel.kt:118-123 | The `body.reversed()` loop computes the weighted digit sum. |
| AuthViewModel.IsValidChileanRut | app/src/main/java/cl/samuel/barzarena/ui/auth/AuthViewModel.kt:110-133 | Accepts exactly the RUTs whose cleaned text has 7–8 digits, then the check digit of those digits. |
| AuthViewModel.CleanRutOf | app/src/main/java/cl/samuel/barzarena/ui/auth/AuthViewModel.kt:111 | Cleaning a digit body followed by a character, with or without a dash between, leaves the body and the upper-cased character. |
| AuthViewModel.ChileanRutWithDash | app/src/main/java/cl/samuel/barzarena/ui/auth/AuthViewModel.kt:110-133 | `body-c` with a 7- or 8-digit body is accepted exactly when the upper-cased `c` is the body's check digit. |
| AuthViewModel.ChileanRutNoDash | app/src/main/java/cl/samuel/barzarena/ui/auth/AuthViewModel.kt:110-133 | The same without the dash, since dashes are removed before the check. |
| AuthViewModel.ExampleBodySum | app/src/main/java/cl/samuel/barzarena/ui/auth/AuthViewModel.kt:118-123 | The weighted sum of 12345678 is 138. |
| AuthViewModel.ExampleCheckDigit | app/src/main/java/cl/samuel/barzarena/ui/auth/AuthViewModel.kt:118-129 | The check digit of 12345678 is 5, so by the two lemmas above `12345678-5` and `123456785` are accepted and `12345678-K` is not. |
| AuthViewModel.RegistrationError | app/src/main/java/cl/samuel/barzarena/ui/auth/AuthViewModel.kt:45-92 | Registration as written: it fails with no message exactly when the name, e-mail, phone and RUT are free, the RUT is valid, the date parses and the day-of-year age is at least 18. Each of the seven messages (name, e-mail, phone or RUT taken, RUT invalid, date invalid, under age) appears exactly when its check is the first to fail. |
| AuthViewModel.RegistrationErrorIntended | app/src/main/java/cl/samuel/barzarena/ui/auth/AuthViewModel.kt:84-91 | Registration with the age in completed years: it succeeds exactly when the earlier checks pass and today is on or after the 18th birthday. |
| AuthViewModel.RegistrationRulesAgree | app/src/main/java/cl/samuel/barzarena/ui/auth/AuthViewModel.kt:84-91 | The as-written and the intended registration give the same result whenever the birth year and the current year have the same leap-ness. |
| AuthViewModel.RegistrationRefusesEighteenthBirthday | app/src/main/java/cl/samuel/barzarena/ui/auth/AuthViewModel.kt:84-91 | With every other check passing, an applicant born on 1 March 2008 is refused as under age on 1 March 2026 by the code as written. The intended rule accepts them. |
| AuthViewModel.LoginOutcome | app/src/main/java/cl/samuel/barzarena/ui/auth/AuthViewModel.kt:137-144 | Either the single login error, or success with a stored row of that name whose hash matches. |
| AuthViewModel.LoginIff | app/src/main/java/cl/samuel/barzarena/ui/auth/AuthViewModel.kt:135-146 | In a valid table, login succeeds with row u exactly when u is stored under that name with that hash. |
| AuthViewModel.RegistrationKeepsTableValid | app/src/main/java/cl/samuel/barzarena/ui/auth/AuthViewModel.kt:45-106 | A successful registration keeps sequential ids and unique names, e-mails, phones and RUTs. |
| AuthViewModel.RegisterThenLogin | app/src/main/java/cl/samuel/barzarena/ui/auth/AuthViewModel.kt:95-106 | After a successful registration, logging in with the same name and password hash succeeds with the new row. |
| AuthViewModel.AuthViewModel.constructor | app/src/main/java/cl/samuel/barzarena/ui/auth/AuthViewModel.kt:25-33 | Starts Idle over the stored table, with the hash and the date parser given. |
| AuthViewModel.AuthViewModel.RegisterUser | app/src/main/java/cl/samuel/barzarena/ui/auth/AuthViewModel.kt:35-108 | Either publishes the first failing check's message with the table unchanged, or appends the new user and publishes RegistrationSuccess. The new user has the next id, the hashed password and a balance of 1000. |
| AuthViewModel.AuthViewModel.LoginUser | app/src/main/java/cl/samuel/barzarena/ui/auth/AuthViewModel.kt:135-146 | Publishes the login outcome for the hashed password and leaves the table unchanged. |
| AuthViewModel.AuthViewModel.ResetAuthEvent | app/src/main/java/cl/samuel/barzarena/ui/auth/AuthViewModel.kt:148-150 | The event is Idle and the table is unchanged. |
| AuthViewModel.RegisterAndLogin | app/src/main/java/cl/samuel/barzarena/ui/auth/AuthViewModel.kt:35-146 | A registration that passes the source's checks, day-of-year age included, then a login, succeeds with the row of id n+1 and balance 1000. A password of another hash is refused. |
| RegisterScreen.RegisterClick | app/src/main/java/cl/samuel/barzarena/ui/auth/RegisterScreen.kt:109-131 | Each rejection message appears exactly when its check is the first to fail: a blank field, a password shorter than 6 UTF-16 code units, then differing passwords. A submission carries the trimmed fields and the password as typed. |
| RegisterScreen.SubmittedFieldsClean | app/src/main/java/cl/samuel/barzarena/ui/auth/RegisterScreen.kt:110-130 | Submitted text fields are non-blank and already trimmed, and the password has at least 6 UTF-16 code units. Submitting them again gives the same outcome. |
| RegisterScreen.WideCharacterPassword | app/src/main/java/cl/samuel/barzarena/ui/auth/RegisterScreen.kt:114 | A password of three characters beyond U+FFFF is six code units long, so it passes the length check and is submitted. |
| RegisterScreen.OnRegisterClick | app/src/main/java/cl/samuel/barzarena/ui/auth/RegisterScreen.kt:109-131 | A rejected form leaves the view model unchanged. A submitted one calls `registerUser` once. It then either publishes the first failing check's message with the table unchanged, or appends the new row (next id, hashed password, parsed birth date) and publishes RegistrationSuccess. |
| AppNavigation.TruncRem | app/src/main/java/cl/samuel/barzarena/ui/AppNavigation.kt:176 | Kotlin `%`: it agrees with the mathematical remainder for a non-negative dividend, and is never positive for a negative one. In both cases it differs from the dividend by a multiple of the divisor, so it is the truncated remainder. |
| AppNavigation.DecimalString | app/src/main/java/cl/samuel/barzarena/ui/AppNavigation.kt:180 | `toString()` of a natural number is a non-empty digit string whose value is that number, with no leading zero (so 12 is written "12", never "012"). |
| AppNavigation.NormalizeRut | app/src/main/java/cl/samuel/barzarena/ui/AppNavigation.kt:161 | The normalised RUT is never longer than the input and holds no dot or space. It has a dash exactly when the input does. |
| AppNavigation.ToIntOrNullRoundTrip | app/src/main/java/cl/samuel/barzarena/ui/AppNavigation.kt:558 | `toIntOrNull()` reads back the decimal text of every `Int`, negative ones included. |
| AppNavigation.DownToWeightedSum | app/src/main/java/cl/samuel/barzarena/ui/AppNavigation.kt:169-175 | The `downTo` loop with the multiplier reset at 8 computes the weighted digit sum, in `Int` arithmetic. |
| AppNavigation.IsValidRut | app/src/main/java/cl/samuel/barzarena/ui/AppNavigation.kt:160-183 | Accepts exactly the inputs that normalise to one dash between a non-empty digit number and the text of its expected check digit. |
| AppNavigation.ExpectedIsCheckDigit | app/src/main/java/cl/samuel/barzarena/ui/AppNavigation.kt:176-181 | While the sum cannot overflow, the expected text is the single modulo-11 check character. |
| AppNavigation.RutValidatorsAgree | app/src/main/java/cl/samuel/barzarena/ui/AppNavigation.kt:160-183 | For `body-c` with 7–8 digits the two RUT validators of the app give the same answer. |
| AppNavigation.NoDashRejected | app/src/main/java/cl/samuel/barzarena/ui/AppNavigation.kt:162 | An input without a dash is refused. |
| AppNavigation.DashlessRutDiffers | app/src/main/java/cl/samuel/barzarena/ui/AppNavigation.kt:162 | A 7- or 8-digit body followed directly by its check digit passes registration's validator and fails this one. |
| AppNavigation.ShortRutDiffers | app/src/main/java/cl/samuel/barzarena/ui/AppNavigation.kt:160-183 | A body of one to six digits, a dash and its check digit passes this validator, which allows any number of digits, and fails registration's. |
| AppNavigation.IntsOf | app/src/main/java/cl/samuel/barzarena/ui/AppNavigation.kt:147 | `mapNotNull { it.toIntOrNull() }` yields at most as many numbers as pieces. |
| AppNavigation.IsOlderThan18 | app/src/main/java/cl/samuel/barzarena/ui/AppNavigation.kt:145-155 | True only for a field of ten UTF-16 code units with exactly three numeric pieces. Such a field is judged by the calendar comparison on those three numbers. |
| AppNavigation.DatePartsOfDigits | app/src/main/java/cl/samuel/barzarena/ui/AppNavigation.kt:147 | `y-m-d` written in digits reads as its three numbers. |
| AppNavigation.DatePartsSkipJunk | app/src/main/java/cl/samuel/barzarena/ui/AppNavigation.kt:147 | A trailing non-numeric piece is dropped silently. |
| AppNavigation.OlderThan18IgnoresJunk | app/src/main/java/cl/samuel/barzarena/ui/AppNavigation.kt:145-155 | A `y-m-d-junk` field of ten code units is judged by the date `y-m-d` alone. |
| AppNavigation.DateUtf16Length | app/src/main/java/cl/samuel/barzarena/ui/AppNavigation.kt:146 | A `y-m-d-junk` field counts one code unit per digit and dash, plus the junk's own length. |
| AppNavigation.NoDashDateRefused | app/src/main/java/cl/samuel/barzarena/ui/AppNavigation.kt:147-148 | A date without dashes (e.g. `dd/MM/yyyy`) is refused. |
| AppNavigation.LoginClick | app/src/main/java/cl/samuel/barzarena/ui/AppNavigation.kt:243-252 | Missing credentials exactly when the trimmed name or the password is empty. Login exactly when the trimmed name is "samuel" in any case and the password is "password123", under the trimmed name. |
| AppNavigation.LoggedInNameIsTrimmed | app/src/main/java/cl/samuel/barzarena/ui/AppNavigation.kt:248-249 | The name handed to the session has six characters, no surrounding whitespace, and is `samuel` up to case. |
| AppNavigation.LoginPadded | app/src/main/java/cl/samuel/barzarena/ui/AppNavigation.kt:248-249 | Any blank padding around any spelling of "samuel" logs in, under the name as typed. |
| AppNavigation.LoginPasswordExact | app/src/main/java/cl/samuel/barzarena/ui/AppNavigation.kt:248 | Any other password is refused. |
| AppNavigation.SelectBattle | app/src/main/java/cl/samuel/barzarena/ui/AppNavigation.kt:654-657 | Tapping a battle selects it and clears the winner chosen; the amount is kept. |
| AppNavigation.SelectWinner | app/src/main/java/cl/samuel/barzarena/ui/AppNavigation.kt:684-690 | The fighter buttons choose fighter A or B of the selected battle, so the panel stays valid. |
| AppNavigation.EditAmount | app/src/main/java/cl/samuel/barzarena/ui/AppNavigation.kt:712 | The amount field becomes exactly the typed digits, never longer than what was typed, and the chosen battle and winner stay as they were. |
| AppNavigation.AmountOf | app/src/main/java/cl/samuel/barzarena/ui/AppNavigation.kt:629 | `betAmountText.toIntOrNull() ?: 0` is an `Int`. On a digit field it is the field's value when that fits, and 0 otherwise. |
| AppNavigation.BetClick | app/src/main/java/cl/samuel/barzarena/ui/AppNavigation.kt:723-738 | Each outcome holds exactly when its check is the first to fail, in the order winner, amount, balance. A placed bet carries the chosen battle, fighter and amount, and clears the selection; a refused one changes nothing. |
| AppNavigation.PlacedBetKeepsBalance | app/src/main/java/cl/samuel/barzarena/ui/AppNavigation.kt:723-736 | A placed bet names a fighter of the battle and stakes a positive amount the balance covers. Whatever the outcome, the balance stays non-negative. |
| AppNavigation.DefaultBetExample | app/src/main/java/cl/samuel/barzarena/ui/AppNavigation.kt:626-629 | With the default "5000" and 50000 in hand, choosing battle 1 and its first fighter places 5000 on "Trueno". |
| AppNavigation.RechargeClick | app/src/main/java/cl/samuel/barzarena/ui/AppNavigation.kt:557-597 | A recharge is sent exactly when the typed digits form a positive value that fits an `Int`, and it carries that value. |
| AppNavigation.KeepDigitsConcat | app/src/main/java/cl/samuel/barzarena/ui/AppNavigation.kt:582 | Filtering digits distributes over concatenation. |
| AppNavigation.RechargeTooLarge | app/src/main/java/cl/samuel/barzarena/ui/AppNavigation.kt:558 | A number too large for an `Int` is not sent. |
| AppNavigation.PurchaseClick | app/src/main/java/cl/samuel/barzarena/ui/AppNavigation.kt:525-532 | The price is charged exactly when the balance covers it, leaving a non-negative balance. |

## Left out

- The Compose screens themselves (layout, toasts, navigation state, `LaunchedEffect` resets of the auth event) are not modelled. Only the decisions their buttons take are.
- The navigation host's callbacks (`AppNavigation.kt:80-135`) call a view-model API that `MainViewModel.kt` does not declare: `updateBalance`, a one-argument `loginSuccess`, a `placeBet` returning a `Bet`, and a one-argument `rechargeBalance` whose result is used as a `Boolean` (`AppNavigation.kt:111`), where `MainViewModel.kt:139` takes a callback and returns `Unit`. The wiring is not modelled; the screens' decisions and the view model's methods are modelled separately.
- The older registration pipeline inside `AppNavigation.kt:331-354` (`Patterns.EMAIL_ADDRESS` and the `isValidRUT`/`isOlderThan18` calls) is not modelled as a flow. Its two validators are.
- Coroutines, the `delay(2500)` simulations, the `isRecharging`/`isPlacingBet` spinners and the `onResult` callbacks: each coroutine body runs as one atomic step. Interleavings between them are not modelled.
- `checkForActiveSession` (restoring a saved session at start-up) and the remote data fetch of `loadInitialData` (network, `remoteData`/`remoteDataError`) are left out. They are network and start-up I/O.
- The Flow collectors that mirror Room into `betHistory` and `storeItems` are modelled as refreshes at login and after a bet. Later emissions are not modelled.
- `formatBetTimestamp` (date formatting) is not modelled.
- Bet ids (`UUID.randomUUID()`), timestamps and the `date` column of a bet are clock and random values. They are caller-supplied or dropped. The bet history's `ORDER BY date DESC` is modelled as reverse insertion order, so ties between equal dates are not modelled.
- The foreign key of the bets table and its cascade delete are not modelled. The SHA-256 hash and `SimpleDateFormat("dd/MM/yyyy").parse` are functions given to the `AuthViewModel` constructor, and "today" is a parameter.
- The Calendar comparison of `isOlderThan18` (`AppNavigation.kt:150-154`) is the `adultOn` parameter of `AppNavigation.IsOlderThan18`.
- The Gson encoding of the preferences history is taken to be the identity: the model stores the decoded list.
- The stock update that `checkout` leaves as a comment, and image resources (`imageResId`, `imageName` presentation), are not modelled.
- The `Double` balance of a Room user is kept as an integer. Every value written to it is a whole number well within a double's exact range.
- The user table of `AuthViewModel` and the balance column that `MainViewModel` writes are kept as two separate ghost or concrete states. They are not linked by user id.
- Character classes are narrowed to ASCII: `isDigit`, `toIntOrNull` (which on the JVM also reads non-ASCII decimal digits, for instance in the date pieces of `isOlderThan18`), `uppercase` and `lowercase` on the characters the fields accept. `isWhitespace` uses the JVM's whitespace set. String lengths that the source compares (`password.length`, `dobString.length`) count UTF-16 code units, as the JVM does.
- MainViewModel.Session.AddToCart: the quantity is an unbounded integer. Its `Int` wrap-around after 2^31 additions to one line is not modelled.
- MainViewModel.Session.RechargeBalance: requires the amount to be an `Int`, as Kotlin's type does. The same holds for the `InRange` requirements on `PlaceBet` and `LoginSuccess`.
- MainViewModel.Session.PlaceBet: the new bet row's id is the row count plus one. Room's autogenerated key is the largest id plus one; the two agree because the core never deletes a bet row.
- AuthViewModel.AuthViewModel.RegisterUser: the new user's id (`NewUser`) is the row count plus one, which `TableValid` keeps sequential. Room's autogenerated key is the largest id plus one; the two agree because the core never deletes a user.
- AppNavigation.ExpectedIsCheckDigit: stated for bodies of at most 30,000,000 digits, where the `Int` sum cannot overflow. Longer numbers are handled by `IsValidRut` with wrap-around.

## Findings

| source | as written | input that shows it | evidently intended | confidence | as-written member | corrected member |
|---|---|---|---|---|---|---|
| app/src/main/java/cl/samuel/barzarena/ui/auth/AuthViewModel.kt:84-87 | The age is the difference of the years, minus one when today's `DAY_OF_YEAR` is smaller than the birth date's. Day numbers shift by one after February in leap years. | born 01/03/2008 (day 61 of a leap year), today 2026-03-01 (day 60): the written rule gives 17 and registration is refused on the 18th birthday | age in completed years: minus one while (month, day) of today is before that of the birth date | not executed | `AuthViewModel.RegistrationError` with `AuthViewModel.AgeByDayOfYear`, used by `RegisterUser` (shown by `AuthViewModel.RegistrationRefusesEighteenthBirthday` and `AuthViewModel.AgeByDayOfYearMissesBirthday`) | `AuthViewModel.RegistrationErrorIntended` with `AuthViewModel.AgeInYears` (stated by `AuthViewModel.AgeInYearsMeaning`) |

`RegisterUser` and the screens that call it run the rule as written. The intended rule sits beside it as `RegistrationErrorIntended`, and `RegistrationRulesAgree` proves the two differ only across years of different leap-ness.
