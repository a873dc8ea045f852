/** The validators and click guards of the Compose screens (ui/AppNavigation.kt): the older
    RUT validator that expects a dash before the check digit, the shape check of the birth
    date field, and the conditions under which the login, bet, recharge and purchase buttons
    act. Each guard is a pure decision; the calendar comparison of the birth date is supplied
    from outside. */
module AppNavigation {
  import opened Wrappers
  import opened Int32
  import opened KotlinText
  import opened RutChecksum
  import opened Battles
  import opened BetModel
  import AuthViewModel
  import MainViewModel

  // ---------------------------------------------------------------- isValidRUT

  /** Kotlin's `%` on `Int`: the remainder takes the sign of the dividend. */
  function TruncRem(a: int, m: int): (r: int)
    requires m > 0
    ensures -m < r < m
    ensures a >= 0 ==> r == a % m
    ensures a < 0 ==> r <= 0
    ensures (a - r) % m == 0
  {
    if a >= 0 then
      MultipleMod(a / m, m);
      a % m
    else
      NegativeRemainder(a, m);
      -((-a) % m)
  }

  /** The truncated remainder of a negative dividend differs from it by a multiple of `m`. */
  lemma NegativeRemainder(a: int, m: int)
    requires m > 0 && a < 0
    ensures (a + (-a) % m) % m == 0
  {
    var q := (-a) / m;
    assert -a == q * m + (-a) % m;
    assert a + (-a) % m == (-q) * m;
    MultipleMod(-q, m);
  }

  lemma MultipleMod(k: int, m: int)
    requires m > 0
    ensures (k * m) % m == 0
  {
    var q, r := (k * m) / m, (k * m) % m;
    assert r == (k - q) * m;
    MultipleSize(k - q, m);
  }

  /** A non-zero multiple of `m` is at least `m` away from zero. */
  lemma MultipleSize(c: int, m: int)
    requires m > 0
    ensures c >= 1 ==> c * m >= m
    ensures c <= -1 ==> c * m <= -m
  {
    if c >= 1 {
      assert c * m == (c - 1) * m + m;
      assert (c - 1) * m >= 0;
    } else if c <= -1 {
      assert c * m == (c + 1) * m - m;
      assert (c + 1) * m <= 0;
    }
  }

  /** `Int.toString()` of a non-negative number. */
  function DecimalString(n: nat): (s: string)
    ensures s != [] && AllDigits(s)
    ensures DigitsValue(s) == n
    ensures |s| > 1 ==> s[0] != '0'
  {
    var last := ('0' as int + n % 10) as char;
    if n < 10 then [last]
    else
      var front := DecimalString(n / 10);
      var s := front + [last];
      assert s[..|s| - 1] == front;
      assert s[0] == front[0];
      s
  }

  /** `toIntOrNull()` reads back the decimal text of any `Int`, negative ones written with a
      leading '-'. */
  lemma ToIntOrNullRoundTrip(n: int)
    requires InRange(n)
    ensures ToIntOrNull(if n < 0 then "-" + DecimalString(-n) else DecimalString(n)) == Some(n)
  {
    if n < 0 {
      var t := "-" + DecimalString(-n);
      assert t[1..] == DecimalString(-n);
    }
  }

  /** The `when (rest)` of `isValidRUT`: "0" for 11, "K" for 10, the number written out
      otherwise. */
  function ExpectedCheckString(sum: int): (r: string) {
    var rest := 11 - TruncRem(sum, 11);
    if rest == 11 then "0" else if rest == 10 then "K" else DecimalString(rest)
  }

  /** The input with dots and spaces removed and letters upper-cased. */
  function NormalizeRut(rutInput: string): (r: string)
    ensures |r| <= |rutInput|
    ensures forall i :: 0 <= i < |r| ==> r[i] != '.' && r[i] != ' '
    ensures '-' in r <==> '-' in rutInput
  {
    var kept := RemoveAll(rutInput, {'.', ' '});
    RemoveAllMembers(rutInput, {'.', ' '});
    var r := UpperCase(kept);
    assert '-' in r <==> '-' in kept by {
      if '-' in kept {
        var k :| 0 <= k < |kept| && kept[k] == '-';
        assert r[k] == '-';
      }
    }
    r
  }

  /** The RUTs `isValidRUT` accepts: exactly one dash, a non-empty all-digit number before
      it, and after it exactly the text of the expected check digit. The digit sum is a
      Kotlin `Int` and wraps. */
  predicate RutWithDashValid(rutInput: string) {
    var parts := Split(NormalizeRut(rutInput), '-');
    && |parts| == 2
    && parts[0] != [] && AllDigits(parts[0])
    && parts[1] == ExpectedCheckString(Wrap(WeightedSum(parts[0])))
  }

  /** The loop of `isValidRUT`: the number's digits from the last one, with a multiplier
      that counts up from 2 and is reset to 2 when it reaches 8. */
  method DownToWeightedSum(number: string) returns (sum: int)
    requires AllDigits(number)
    ensures sum == Wrap(WeightedSum(number))
  {
    sum := 0;
    var multiplier := 2;
    var i := |number|;
    while i > 0
      invariant 0 <= i <= |number|
      invariant sum == Wrap(WeightedSum(number[i..]))
      invariant multiplier == Weight(|number| - i)
    {
      i := i - 1;
      var product := DigitValue(number[i]) * multiplier;
      assert 0 <= product <= 63 by { MulBound(DigitValue(number[i]), multiplier); }
      assert number[i..][0] == number[i] && number[i..][1..] == number[i + 1..];
      assert WeightedSum(number[i..]) == product + WeightedSum(number[i + 1..]);
      WrapAdd(WeightedSum(number[i + 1..]), product);
      sum := Wrap(sum + product);
      WeightNext(|number| - (i + 1));
      multiplier := multiplier + 1;
      if multiplier == 8 {
        multiplier := 2;
      }
    }
    assert number[0..] == number;
  }

  /** `isValidRUT`. */
  method IsValidRut(rutInput: string) returns (ok: bool)
    ensures ok == RutWithDashValid(rutInput)
  {
    var rut := UpperCase(RemoveAll(rutInput, {'.', ' '}));
    assert rut == NormalizeRut(rutInput);
    if '-' !in rut {
      assert CountChar(rut, '-') == 0 by { CountAbsent(rut, '-'); }
      return false;
    }
    var parts := Split(rut, '-');
    if |parts| != 2 {
      return false;
    }
    var number := parts[0];
    var dv := parts[1];
    if number == [] || !AllDigits(number) {
      return false;
    }
    var sum := DownToWeightedSum(number);
    var rest := 11 - TruncRem(sum, 11);
    var dvCalculated := if rest == 11 then "0" else if rest == 10 then "K" else DecimalString(rest);
    assert dvCalculated == ExpectedCheckString(Wrap(WeightedSum(number)));
    ok := dvCalculated == dv;
  }

  /** A string without the character counts none of it. */
  lemma {:induction false} CountAbsent(s: string, c: char)
    requires c !in s
    ensures CountChar(s, c) == 0
  {
    if s != [] {
      assert forall x :: x in s[1..] ==> x in s;
      CountAbsent(s[1..], c);
    }
  }

  /** For a non-negative sum the expected text is the single check character. */
  lemma ExpectedFromSum(sum: nat)
    ensures ExpectedCheckString(sum) == [CheckChar(sum)]
  {
    var rest := 11 - sum % 11;
    assert TruncRem(sum, 11) == sum % 11;
    if rest < 10 {
      assert rest % 10 == rest;
      assert DecimalString(rest) == [('0' as int + rest) as char];
    }
  }

  /** While the sum fits an `Int`, the expected text is the single check character. */
  lemma ExpectedIsCheckDigit(number: string)
    requires AllDigits(number) && |number| <= 30_000_000
    ensures ExpectedCheckString(Wrap(WeightedSum(number))) == [CheckDigit(number)]
  {
    assert Wrap(WeightedSum(number)) == WeightedSum(number);
    ExpectedFromSum(WeightedSum(number));
  }

  /** Removing dots and spaces leaves `body-c` alone. */
  lemma RemoveDashedNone(body: string, c: char)
    requires AllDigits(body) && c != '.' && c != ' '
    ensures RemoveAll(body + ['-', c], {'.', ' '}) == body + ['-', c]
  {
    var drop := {'.', ' '};
    RemoveAllConcat(body, ['-', c], drop);
    RemoveAllKeepsDigits(body, drop);
    RemoveAllNone(['-', c], drop);
  }

  /** Normalising `body-c` upper-cases `c` and leaves the digits and the dash alone. */
  lemma NormalizeDashed(body: string, c: char)
    requires AllDigits(body) && c != '.' && c != ' '
    ensures NormalizeRut(body + ['-', c]) == body + ['-'] + [UpperChar(c)]
  {
    RemoveDashedNone(body, c);
    var n := UpperCase(body + ['-', c]);
    var expected := body + ['-'] + [UpperChar(c)];
    forall k | 0 <= k < |n|
      ensures n[k] == expected[k]
    {
      if k < |body| {
        assert IsDigit(body[k]);
      }
    }
  }

  /** For a body of seven or eight digits followed by a dash and one character that is not
      a dot, a dash or a space, the two RUT validators of the app agree. */
  lemma RutValidatorsAgree(body: string, c: char)
    requires 7 <= |body| <= 8 && AllDigits(body) && c != '.' && c != '-' && c != ' '
    ensures RutWithDashValid(body + ['-', c]) == AuthViewModel.ChileanRutValid(body + ['-', c])
  {
    NormalizeDashed(body, c);
    assert '-' !in body by {
      forall k | 0 <= k < |body| ensures body[k] != '-' { assert IsDigit(body[k]); }
    }
    SplitOnce(body, [UpperChar(c)], '-');
    assert Split(NormalizeRut(body + ['-', c]), '-') == [body, [UpperChar(c)]];
    ExpectedIsCheckDigit(body);
    AuthViewModel.ChileanRutWithDash(body, c);
  }

  /** `isValidRUT` refuses every input without a dash. */
  lemma NoDashRejected(rutInput: string)
    requires '-' !in rutInput
    ensures !RutWithDashValid(rutInput)
  {
    var n := NormalizeRut(rutInput);
    var r := RemoveAll(rutInput, {'.', ' '});
    RemoveAllMembers(rutInput, {'.', ' '});
    forall k | 0 <= k < |n| ensures n[k] != '-' {
      assert r[k] in r;
    }
    SplitNone(n, '-');
  }

  /** Where they differ: a RUT written without its dash, such as `123456785`, passes
      registration's validator and fails this one. */
  lemma DashlessRutDiffers(body: string, c: char)
    requires 7 <= |body| <= 8 && AllDigits(body) && c != '.' && c != '-'
    requires UpperChar(c) == CheckDigit(body)
    ensures AuthViewModel.ChileanRutValid(body + [c]) && !RutWithDashValid(body + [c])
  {
    AuthViewModel.ChileanRutNoDash(body, c);
    assert '-' !in body + [c] by {
      forall k | 0 <= k < |body| ensures body[k] != '-' { assert IsDigit(body[k]); }
    }
    NoDashRejected(body + [c]);
  }

  /** And a body shorter than seven digits with its check digit after a dash, such as `1-9`,
      passes this validator and fails registration's. */
  lemma ShortRutDiffers(body: string)
    requires 1 <= |body| <= 6 && AllDigits(body)
    ensures RutWithDashValid(body + ['-', CheckDigit(body)])
    ensures !AuthViewModel.ChileanRutValid(body + ['-', CheckDigit(body)])
  {
    var c := CheckDigit(body);
    NormalizeDashed(body, c);
    assert UpperChar(c) == c;
    assert '-' !in body by {
      forall k | 0 <= k < |body| ensures body[k] != '-' { assert IsDigit(body[k]); }
    }
    SplitOnce(body, [c], '-');
    ExpectedIsCheckDigit(body);
    AuthViewModel.CleanRutOf(body, c, true);
  }

  // ---------------------------------------------------------------- isOlderThan18

  /** `mapNotNull { it.toIntOrNull() }`. */
  function IntsOf(parts: seq<string>): (r: seq<int>)
    ensures |r| <= |parts|
  {
    if parts == [] then []
    else
      match ToIntOrNull(parts[0])
      case Some(v) => [v] + IntsOf(parts[1..])
      case None => IntsOf(parts[1..])
  }

  /** The numbers `isOlderThan18` reads from a `YYYY-MM-DD` field. */
  function DateParts(dob: string): (r: seq<int>) {
    IntsOf(Split(dob, '-'))
  }

  /** `isOlderThan18`: the input must be ten characters long and yield exactly three
      numbers; `adultOn(year, month, day)` is the calendar comparison with the date eighteen
      years before today. */
  function IsOlderThan18(dob: string, adultOn: (int, int, int) -> bool): (ok: bool)
    ensures ok ==> Utf16Length(dob) == 10 && |DateParts(dob)| == 3
    ensures Utf16Length(dob) == 10 && |DateParts(dob)| == 3 ==>
              ok == adultOn(DateParts(dob)[0], DateParts(dob)[1], DateParts(dob)[2])
  {
    if Utf16Length(dob) != 10 then false
    else
      var parts := DateParts(dob);
      if |parts| != 3 then false
      else adultOn(parts[0], parts[1], parts[2])
  }

  /** `mapNotNull` distributes over concatenation. */
  lemma {:induction false} IntsOfConcat(p: seq<string>, q: seq<string>)
    ensures IntsOf(p + q) == IntsOf(p) + IntsOf(q)
  {
    if p != [] {
      assert (p + q)[1..] == p[1..] + q;
      IntsOfConcat(p[1..], q);
    } else {
      assert p + q == q;
    }
  }

  /** A piece of plain digits reads as its value when that fits an `Int`. */
  lemma DigitsPiece(s: string)
    requires s != [] && AllDigits(s) && DigitsValue(s) <= INT_MAX
    ensures ToIntOrNull(s) == Some(DigitsValue(s))
    ensures '-' !in s
  {
    assert IsDigit(s[0]);
  }

  /** `YYYY-MM-DD` written in digits reads as its three numbers. */
  lemma DatePartsOfDigits(y: string, m: string, d: string)
    requires y != [] && AllDigits(y) && DigitsValue(y) <= INT_MAX
    requires m != [] && AllDigits(m) && DigitsValue(m) <= INT_MAX
    requires d != [] && AllDigits(d) && DigitsValue(d) <= INT_MAX
    ensures DateParts(y + "-" + m + "-" + d) == [DigitsValue(y), DigitsValue(m), DigitsValue(d)]
  {
    DigitsPiece(y);
    DigitsPiece(m);
    DigitsPiece(d);
    SplitThree(y, m, d);
    IntsOfPiece(y);
    IntsOfPiece(m);
    IntsOfPiece(d);
    assert [y, m, d] == [y, m] + [d] && [y, m] == [y] + [m];
    IntsOfConcat([y, m], [d]);
    IntsOfConcat([y], [m]);
  }

  /** One piece of plain digits yields its value. */
  lemma IntsOfPiece(s: string)
    requires AllDigits(s) && ToIntOrNull(s) == Some(DigitsValue(s))
    ensures IntsOf([s]) == [DigitsValue(s)]
  {
    assert [s][1..] == [];
  }

  /** Three dash-free pieces joined by dashes split back into those pieces. */
  lemma SplitThree(y: string, m: string, d: string)
    requires '-' !in y && '-' !in m && '-' !in d
    ensures Split(y + "-" + m + "-" + d, '-') == [y, m, d]
  {
    SplitConcat(y + "-" + m, d, '-');
    SplitConcat(y, m, '-');
    SplitNone(y, '-');
    SplitNone(m, '-');
    SplitNone(d, '-');
  }

  /** A trailing piece that is not a number is dropped silently: `1-2-3-abcd` reads the same
      as `1-2-3`. */
  lemma DatePartsSkipJunk(dob: string, junk: string)
    requires '-' !in junk && ToIntOrNull(junk).None?
    ensures DateParts(dob + "-" + junk) == DateParts(dob)
  {
    SplitConcat(dob, junk, '-');
    SplitNone(junk, '-');
    IntsOfConcat(Split(dob, '-'), [junk]);
    assert [junk][1..] == [];
  }

  /** So a ten-character field `y-m-d-junk` is judged by the date `y-m-d` alone. */
  lemma OlderThan18IgnoresJunk(y: string, m: string, d: string, junk: string, adultOn: (int, int, int) -> bool)
    requires y != [] && AllDigits(y) && DigitsValue(y) <= INT_MAX
    requires m != [] && AllDigits(m) && DigitsValue(m) <= INT_MAX
    requires d != [] && AllDigits(d) && DigitsValue(d) <= INT_MAX
    requires '-' !in junk && ToIntOrNull(junk).None?
    requires |y| + |m| + |d| + Utf16Length(junk) == 7
    ensures IsOlderThan18(y + "-" + m + "-" + d + "-" + junk, adultOn)
         == adultOn(DigitsValue(y), DigitsValue(m), DigitsValue(d))
  {
    DateUtf16Length(y, m, d, junk);
    DatePartsSkipJunk(y + "-" + m + "-" + d, junk);
    DatePartsOfDigits(y, m, d);
  }

  /** The field `y-m-d-junk` counts one code unit per digit and dash. */
  lemma DateUtf16Length(y: string, m: string, d: string, junk: string)
    requires AllDigits(y) && AllDigits(m) && AllDigits(d)
    ensures Utf16Length(y + "-" + m + "-" + d + "-" + junk) == |y| + |m| + |d| + 3 + Utf16Length(junk)
  {
    DigitsUtf16Length(y);
    DigitsUtf16Length(m);
    DigitsUtf16Length(d);
    assert Utf16Length("-") == 1;
    Utf16LengthConcat(y, "-");
    Utf16LengthConcat(y + "-", m);
    Utf16LengthConcat(y + "-" + m, "-");
    Utf16LengthConcat(y + "-" + m + "-", d);
    Utf16LengthConcat(y + "-" + m + "-" + d, "-");
    Utf16LengthConcat(y + "-" + m + "-" + d + "-", junk);
  }

  /** A date written without dashes (with slashes, say) is one piece and is refused. */
  lemma NoDashDateRefused(dob: string, adultOn: (int, int, int) -> bool)
    requires '-' !in dob
    ensures !IsOlderThan18(dob, adultOn)
  {
    SplitNone(dob, '-');
    assert [dob][1..] == [];
  }

  // ---------------------------------------------------------------- LoginScreen

  const LOGIN_USER: string := "samuel"
  const LOGIN_PASSWORD: string := "password123"

  datatype LoginDecision = MissingCredentials | LoggedIn(username: string) | WrongCredentials

  /** The login button: empty input is refused first; the single hard-coded account is
      matched on the trimmed user name in any letter case and the exact password. */
  function LoginClick(username: string, password: string): (r: LoginDecision)
    ensures r == MissingCredentials <==> Trim(username) == [] || password == []
    ensures r.LoggedIn? <==> LowerCase(Trim(username)) == LOGIN_USER && password == LOGIN_PASSWORD
    ensures r.LoggedIn? ==> r.username == Trim(username)
  {
    if Trim(username) == [] || password == [] then MissingCredentials
    else if LowerCase(Trim(username)) == LOGIN_USER && password == LOGIN_PASSWORD then LoggedIn(Trim(username))
    else WrongCredentials
  }

  /** The name handed to the session after a successful login has no surrounding whitespace
      and is "samuel" up to letter case. */
  lemma LoggedInNameIsTrimmed(username: string, password: string)
    requires LoginClick(username, password).LoggedIn?
    ensures var name := LoginClick(username, password).username;
            |name| == 6 && Trim(name) == name && LowerCase(name) == LOGIN_USER
  {
    TrimIdempotent(username);
  }

  /** Surrounding whitespace and letter case do not matter: any blank padding around any
      spelling of "samuel" logs in with the right password, under the name as typed. */
  lemma LoginPadded(w1: string, name: string, w2: string)
    requires IsBlank(w1) && IsBlank(w2) && LowerCase(name) == LOGIN_USER
    ensures LoginClick(w1 + name + w2, LOGIN_PASSWORD) == LoggedIn(name)
  {
    assert LowerChar(name[0]) == 's' && LowerChar(name[5]) == 'l';
    TrimPadded(w1, name, w2);
  }

  /** The password, unlike the user name, is compared exactly. */
  lemma LoginPasswordExact(username: string, password: string)
    requires password != LOGIN_PASSWORD
    ensures !LoginClick(username, password).LoggedIn?
  {
  }

  // ---------------------------------------------------------------- BattlesScreen

  /** The state of the bet panel: the battle and winner chosen, and the amount field. */
  datatype BetPanel = BetPanel(selectedBattle: Option<Battle>, selectedWinner: Option<string>, betAmountText: string)

  const INITIAL_PANEL: BetPanel := BetPanel(None, None, "5000")

  /** A winner is only ever chosen among the fighters of the chosen battle. */
  predicate PanelValid(p: BetPanel) {
    p.selectedWinner.Some? ==>
      && p.selectedBattle.Some?
      && (p.selectedWinner.value == p.selectedBattle.value.rapFighterA
          || p.selectedWinner.value == p.selectedBattle.value.rapFighterB)
  }

  /** Tapping a battle card selects it and clears the chosen winner. */
  function SelectBattle(p: BetPanel, battle: Battle): (q: BetPanel)
    ensures PanelValid(q) && q.selectedBattle == Some(battle) && q.selectedWinner == None
    ensures q.betAmountText == p.betAmountText
  {
    p.(selectedBattle := Some(battle), selectedWinner := None)
  }

  /** The fighter buttons appear on the selected card only; they choose fighter A or B. */
  function SelectWinner(p: BetPanel, pickA: bool): (q: BetPanel)
    requires p.selectedBattle.Some?
    ensures PanelValid(q) && q.selectedBattle == p.selectedBattle && q.betAmountText == p.betAmountText
    ensures q.selectedWinner == Some(if pickA then p.selectedBattle.value.rapFighterA else p.selectedBattle.value.rapFighterB)
  {
    var b := p.selectedBattle.value;
    p.(selectedWinner := Some(if pickA then b.rapFighterA else b.rapFighterB))
  }

  /** The amount field keeps only the digits typed. */
  function EditAmount(p: BetPanel, typed: string): (q: BetPanel)
    ensures AllDigits(q.betAmountText) && |q.betAmountText| <= |typed|
    ensures PanelValid(p) ==> PanelValid(q)
    ensures q.betAmountText == KeepDigits(typed)
    ensures q.selectedBattle == p.selectedBattle && q.selectedWinner == p.selectedWinner
  {
    p.(betAmountText := KeepDigits(typed))
  }

  /** `betAmountText.toIntOrNull() ?: 0`. */
  function AmountOf(text: string): (r: int)
    ensures InRange(r)
    ensures AllDigits(text) ==> r == (if text != [] && DigitsValue(text) <= INT_MAX then DigitsValue(text) else 0)
  {
    match ToIntOrNull(text)
    case Some(v) => v
    case None => 0
  }

  datatype BetDecision = NoWinner | InvalidAmount | InsufficientBalance | Place(battle: Battle, winner: string, amount: int)

  /** The bet button: the winner, the amount and the balance are checked in that order; a
      placed bet clears the battle and winner chosen. */
  function BetClick(p: BetPanel, balance: int): (r: (BetDecision, BetPanel))
    requires PanelValid(p)
    ensures r.0.Place? <==> p.selectedWinner.Some? && AmountOf(p.betAmountText) > 0 && balance >= AmountOf(p.betAmountText)
    ensures r.0 == NoWinner <==> p.selectedWinner.None?
    ensures r.0 == InvalidAmount <==> p.selectedWinner.Some? && AmountOf(p.betAmountText) <= 0
    ensures r.0.Place? ==>
      && r.0.battle == p.selectedBattle.value && r.0.winner == p.selectedWinner.value
      && r.0.amount == AmountOf(p.betAmountText)
      && r.1 == BetPanel(None, None, p.betAmountText)
    ensures !r.0.Place? ==> r.1 == p
    ensures PanelValid(r.1)
  {
    var amount := AmountOf(p.betAmountText);
    if p.selectedWinner.None? then (NoWinner, p)
    else if amount <= 0 then (InvalidAmount, p)
    else if balance < amount then (InsufficientBalance, p)
    else (Place(p.selectedBattle.value, p.selectedWinner.value, amount), BetPanel(None, None, p.betAmountText))
  }

  /** A bet the panel places names one of the battle's fighters, stakes a positive amount the
      balance covers, and so never takes the balance below zero whatever the outcome. */
  lemma PlacedBetKeepsBalance(p: BetPanel, balance: int)
    requires PanelValid(p)
    requires BetClick(p, balance).0.Place?
    ensures var d := BetClick(p, balance).0;
            && (d.winner == d.battle.rapFighterA || d.winner == d.battle.rapFighterB)
            && 0 < d.amount <= balance
            && balance + MainViewModel.Winnings(MainViewModel.Resolve(d.battle, d.winner), d.amount) >= 0
  {
  }

  /** With the default amount of 5000 and a balance of 50000, choosing battle 1 and its
      first fighter places a 5000 bet on "Trueno". */
  lemma DefaultBetExample()
    ensures var p := SelectWinner(SelectBattle(INITIAL_PANEL, ActiveBattles()[0]), true);
            BetClick(p, 50000).0 == Place(ActiveBattles()[0], "Trueno", 5000)
  {
    assert DigitsValue("5000") == 5000 by {
      assert "5000"[..3] == "500" && "500"[..2] == "50" && "50"[..1] == "5";
    }
  }

  // ---------------------------------------------------------------- RechargeScreen

  /** What the recharge button issues for the amount field: the field keeps only digits, a
      value that does not parse counts as 0, and only a positive amount is sent. */
  function RechargeClick(typed: string): (r: Option<int>)
    ensures r.Some? <==> KeepDigits(typed) != [] && 0 < DigitsValue(KeepDigits(typed)) <= INT_MAX
    ensures r.Some? ==> r.value == DigitsValue(KeepDigits(typed)) && 0 < r.value <= INT_MAX
  {
    var amountText := KeepDigits(typed);
    DigitsToIntOrZero(amountText);
    var amountInt := AmountOf(amountText);
    if amountInt > 0 then Some(amountInt) else None
  }

  /** Letters typed among the digits are dropped: the amount of `a + b` with letters in
      between is that of the digits of `a` followed by those of `b`. */
  lemma {:induction false} KeepDigitsConcat(a: string, b: string)
    ensures KeepDigits(a + b) == KeepDigits(a) + KeepDigits(b)
  {
    if a != [] {
      var head := if IsDigit(a[0]) then [a[0]] else [];
      assert (a + b)[0] == a[0];
      assert (a + b)[1..] == a[1..] + b;
      assert KeepDigits(a + b) == head + KeepDigits(a[1..] + b);
      assert KeepDigits(a) == head + KeepDigits(a[1..]);
      KeepDigitsConcat(a[1..], b);
    } else {
      assert a + b == b;
    }
  }

  /** A number too large for an `Int` is not sent. */
  lemma RechargeTooLarge(typed: string)
    requires DigitsValue(KeepDigits(typed)) > INT_MAX
    ensures RechargeClick(typed) == None
  {
  }

  // ---------------------------------------------------------------- StoreScreen

  /** The buy button of a store item: the price is charged only when the balance covers it. */
  function PurchaseClick(balance: int, price: int): (r: Option<int>)
    ensures r.Some? <==> balance >= price
    ensures r.Some? ==> r.value == price && balance - r.value >= 0
  {
    if balance >= price then Some(price) else None
  }
}
