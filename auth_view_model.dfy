/** Registration and login against the local user table (ui/auth/AuthViewModel.kt). Registration
    checks, in order, that the user name, e-mail, phone and RUT are not taken, that the RUT is
    well formed with a correct check digit, that the birth date parses and that the applicant is
    of age; only then is a user inserted, with the password hashed and an initial balance of
    1000. Login looks the user up by name and compares password hashes. The hash function, the
    date parser and the current date are supplied from outside. */
module AuthViewModel {
  import opened Wrappers
  import opened KotlinText
  import opened RutChecksum

  // ---------------------------------------------------------------- calendar dates

  datatype Date = Date(year: int, month: int, day: int)

  /** The Gregorian leap-year rule. */
  predicate IsLeapYear(y: int) {
    y % 4 == 0 && (y % 100 != 0 || y % 400 == 0)
  }

  function DaysInMonth(month: int, leap: bool): (n: int)
    requires 1 <= month <= 12
    ensures 28 <= n <= 31
  {
    if month == 2 then (if leap then 29 else 28)
    else if month == 4 || month == 6 || month == 9 || month == 11 then 30
    else 31
  }

  predicate IsValidDate(d: Date) {
    1 <= d.month <= 12 && 1 <= d.day <= DaysInMonth(d.month, IsLeapYear(d.year))
  }

  type CalendarDate = d: Date | IsValidDate(d) witness Date(2000, 1, 1)

  /** The days of the year that come before the first of `month`. */
  function DaysBefore(month: int, leap: bool): (n: int)
    requires 1 <= month <= 12
    ensures n >= 0
  {
    if month == 1 then 0 else DaysBefore(month - 1, leap) + DaysInMonth(month - 1, leap)
  }

  /** `Calendar.DAY_OF_YEAR`: 1 on the first of January. */
  function DayOfYear(d: CalendarDate): int {
    DaysBefore(d.month, IsLeapYear(d.year)) + d.day
  }

  /** Later months start later in the same kind of year. */
  lemma {:induction false} DaysBeforeGrows(m1: int, m2: int, leap: bool)
    requires 1 <= m1 < m2 <= 12
    ensures DaysBefore(m1, leap) + DaysInMonth(m1, leap) <= DaysBefore(m2, leap)
  {
    if m2 > m1 + 1 {
      DaysBeforeGrows(m1, m2 - 1, leap);
    }
  }

  /** Within years of the same kind, the day of the year orders dates as (month, day) does. */
  lemma DayOfYearOrder(a: CalendarDate, b: CalendarDate)
    requires IsLeapYear(a.year) == IsLeapYear(b.year)
    ensures DayOfYear(a) < DayOfYear(b) <==> a.month < b.month || (a.month == b.month && a.day < b.day)
  {
    var leap := IsLeapYear(a.year);
    if a.month < b.month {
      DaysBeforeGrows(a.month, b.month, leap);
    } else if b.month < a.month {
      DaysBeforeGrows(b.month, a.month, leap);
    }
  }

  /** True when (month, day) of `a` comes strictly before that of `b` in the calendar year. */
  predicate EarlierInYear(a: Date, b: Date) {
    a.month < b.month || (a.month == b.month && a.day < b.day)
  }

  /** The age computed as registration writes it: the difference of the years, minus one when
      today's day of the year is smaller than the birth's. */
  function AgeByDayOfYear(birth: CalendarDate, today: CalendarDate): (age: int)
    ensures today.year - birth.year - 1 <= age <= today.year - birth.year
    ensures IsLeapYear(birth.year) == IsLeapYear(today.year) ==>
              (age == today.year - birth.year <==> !EarlierInYear(today, birth))
  {
    if IsLeapYear(birth.year) == IsLeapYear(today.year) then
      DayOfYearOrder(today, birth);
      today.year - birth.year - (if DayOfYear(today) < DayOfYear(birth) then 1 else 0)
    else
      today.year - birth.year - (if DayOfYear(today) < DayOfYear(birth) then 1 else 0)
  }

  /** The age in completed years: the difference of the years, minus one while this year's
      birthday has not yet come. */
  function AgeInYears(birth: CalendarDate, today: CalendarDate): (age: int)
    ensures birth.year + age < today.year || (birth.year + age == today.year && !EarlierInYear(today, birth))
    ensures !(birth.year + age + 1 < today.year || (birth.year + age + 1 == today.year && !EarlierInYear(today, birth)))
  {
    today.year - birth.year - (if EarlierInYear(today, birth) then 1 else 0)
  }

  /** Someone is at least `n` years old exactly when today is on or after their birth date
      moved `n` years forward. */
  lemma AgeInYearsMeaning(birth: CalendarDate, today: CalendarDate, n: int)
    ensures AgeInYears(birth, today) >= n
        <==> (birth.year + n < today.year
              || (birth.year + n == today.year && !EarlierInYear(today, birth)))
  {
  }

  /** The written rule and the completed-years rule agree whenever the birth year and the
      current year are both leap years or both common years. */
  lemma AgeRulesAgree(birth: CalendarDate, today: CalendarDate)
    requires IsLeapYear(birth.year) == IsLeapYear(today.year)
    ensures AgeByDayOfYear(birth, today) == AgeInYears(birth, today)
  {
    DayOfYearOrder(today, birth);
  }

  /** Across a leap year the written rule is a day late: someone born on 1 March 2008 (day 61
      of a leap year) turns 18 on 1 March 2026 (day 60 of a common year), and is still 17 by
      the day-of-year rule. */
  lemma AgeByDayOfYearMissesBirthday()
    ensures AgeByDayOfYear(Date(2008, 3, 1), Date(2026, 3, 1)) == 17
    ensures AgeInYears(Date(2008, 3, 1), Date(2026, 3, 1)) == 18
  {
    assert DayOfYear(Date(2008, 3, 1)) == 61;
    assert DayOfYear(Date(2026, 3, 1)) == 60;
  }

  // ---------------------------------------------------------------- users and events

  /** A row of the `users` table; the balance is the initial grant, a whole number. */
  datatype User = User(
    id: int,
    userName: string,
    password: string,
    email: string,
    phone: string,
    rut: string,
    birthDate: Date,
    balance: int)

  datatype AuthEvent = LoginSuccess(user: User) | RegistrationSuccess | Error(message: string) | Idle

  const USERNAME_TAKEN: string := "El nombre de usuario ya existe."
  const EMAIL_TAKEN: string := "El correo electr\U{00F3}nico ya est\U{00E1} registrado."
  const PHONE_TAKEN: string := "El tel\U{00E9}fono ya est\U{00E1} registrado."
  const RUT_TAKEN: string := "El RUT ya est\U{00E1} registrado."
  const RUT_INVALID: string := "El formato del RUT no es v\U{00E1}lido."
  const DATE_INVALID: string := "Formato de fecha inv\U{00E1}lido. Use dd/MM/yyyy."
  const UNDER_AGE: string := "Debes ser mayor de 18 a\U{00F1}os para registrarte."
  const LOGIN_FAILED: string := "Usuario o contrase\U{00F1}a incorrectos."
  const INITIAL_BALANCE: int := 1000
  const MINIMUM_AGE: int := 18

  /** The user table as registration keeps it: ids 1, 2, … in insertion order, and no two
      users sharing a user name, an e-mail, a phone or a RUT. */
  predicate TableValid(users: seq<User>) {
    && (forall i :: 0 <= i < |users| ==> users[i].id == i + 1)
    && (forall i, j :: 0 <= i < j < |users| ==>
          && users[i].userName != users[j].userName
          && users[i].email != users[j].email
          && users[i].phone != users[j].phone
          && users[i].rut != users[j].rut)
  }

  /** `getUserByUsername(...).firstOrNull()`: the first row with that user name. */
  function FindByUserName(users: seq<User>, name: string): (r: Option<User>)
    ensures r.Some? ==> r.value in users && r.value.userName == name
    ensures r.None? <==> forall u :: u in users ==> u.userName != name
  {
    if users == [] then None
    else if users[0].userName == name then Some(users[0])
    else FindByUserName(users[1..], name)
  }

  /** Looking a name up after appending a user with a new name finds that user. */
  lemma {:induction false} FindAppended(users: seq<User>, u: User)
    requires forall v :: v in users ==> v.userName != u.userName
    ensures FindByUserName(users + [u], u.userName) == Some(u)
  {
    if users != [] {
      assert (users + [u])[1..] == users[1..] + [u];
      FindAppended(users[1..], u);
    }
  }

  predicate EmailTaken(users: seq<User>, email: string) {
    exists u :: u in users && u.email == email
  }

  predicate PhoneTaken(users: seq<User>, phone: string) {
    exists u :: u in users && u.phone == phone
  }

  predicate RutTaken(users: seq<User>, rut: string) {
    exists u :: u in users && u.rut == rut
  }

  // ---------------------------------------------------------------- the RUT check

  /** The RUT with dots and dashes removed and letters upper-cased. */
  function CleanRut(rut: string): string {
    UpperCase(RemoveAll(rut, {'.', '-'}))
  }

  /** The pattern `^\d{7,8}[0-9K]$`. */
  predicate RutShape(c: string) {
    8 <= |c| <= 9 && AllDigits(c[..|c| - 1]) && (IsDigit(c[|c| - 1]) || c[|c| - 1] == 'K')
  }

  /** A RUT registration accepts: seven or eight body digits followed by their check digit,
      with any dots and dashes ignored and a lower-case 'k' allowed. */
  predicate ChileanRutValid(rut: string) {
    var c := CleanRut(rut);
    RutShape(c) && c[|c| - 1] == CheckDigit(c[..|c| - 1])
  }

  /** The `for (i in body.reversed())` loop of `isValidChileanRut`: the digits from the last
      one, with a multiplier that runs 2 to 7 and wraps back to 2. */
  method ReversedWeightedSum(body: string) returns (sum: int)
    requires AllDigits(body)
    ensures sum == WeightedSum(body)
  {
    sum := 0;
    var multiple := 2;
    var i := 0;
    while i < |body|
      invariant 0 <= i <= |body|
      invariant sum == WeightedSum(body[|body| - i..])
      invariant multiple == Weight(i)
    {
      var digit := body[|body| - 1 - i];
      ghost var longer := body[|body| - (i + 1)..];
      assert longer[0] == digit && longer[1..] == body[|body| - i..];
      assert WeightedSum(longer) == DigitValue(digit) * Weight(i) + WeightedSum(body[|body| - i..]);
      sum := sum + DigitValue(digit) * multiple;
      WeightNext(i);
      multiple := if multiple == 7 then 2 else multiple + 1;
      i := i + 1;
    }
    assert body[|body| - i..] == body;
  }

  /** `isValidChileanRut`: cleans the input, checks its shape, then recomputes the check digit
      walking the body from its last digit with weights 2 to 7 repeating. */
  method IsValidChileanRut(rut: string) returns (ok: bool)
    ensures ok == ChileanRutValid(rut)
  {
    var cleanRut := UpperCase(RemoveAll(rut, {'.', '-'}));
    if !RutShape(cleanRut) {
      return false;
    }
    var body := cleanRut[..|cleanRut| - 1];
    var dv := cleanRut[|cleanRut| - 1];
    var sum := ReversedWeightedSum(body);
    var mod := 11 - sum % 11;
    var expectedDv := if mod == 11 then '0' else if mod == 10 then 'K' else ('0' as int + mod) as char;
    ok := dv == expectedDv;
  }

  /** Dots and dashes removed from a digit body followed by `c`, with or without a dash
      between them, leave the body and `c`. */
  lemma RemovePunctuation(body: string, c: char, dashed: bool)
    requires AllDigits(body) && c != '.' && c != '-'
    ensures RemoveAll(body + (if dashed then ['-', c] else [c]), {'.', '-'}) == body + [c]
  {
    var drop := {'.', '-'};
    var tail := if dashed then ['-', c] else [c];
    RemoveAllConcat(body, tail, drop);
    RemoveAllKeepsDigits(body, drop);
    assert RemoveAll([c], drop) == [c] by {
      assert c !in drop && [c][1..] == [];
    }
    if dashed {
      assert tail[0] in drop && tail[1..] == [c];
    }
  }

  /** Upper-casing leaves digits alone. */
  lemma UpperDigitsThen(body: string, c: char)
    requires AllDigits(body)
    ensures UpperCase(body + [c]) == body + [UpperChar(c)]
  {
    var r := body + [c];
    forall k | 0 <= k < |r| ensures UpperChar(r[k]) == (body + [UpperChar(c)])[k] {
      if k < |body| { assert IsDigit(body[k]); }
    }
  }

  /** Cleaning a digit body followed by `c`, with or without a dash between them, leaves the
      digits and the upper-cased `c`. */
  lemma CleanRutOf(body: string, c: char, dashed: bool)
    requires AllDigits(body) && c != '.' && c != '-'
    ensures CleanRut(body + (if dashed then ['-', c] else [c])) == body + [UpperChar(c)]
  {
    RemovePunctuation(body, c, dashed);
    UpperDigitsThen(body, c);
  }

  /** For a body of seven or eight digits written as `body-c`, the RUT is accepted exactly
      when `c`, upper-cased, is the body's check digit. */
  lemma ChileanRutWithDash(body: string, c: char)
    requires 7 <= |body| <= 8 && AllDigits(body) && c != '.' && c != '-'
    ensures ChileanRutValid(body + ['-', c]) <==> UpperChar(c) == CheckDigit(body)
  {
    CleanRutOf(body, c, true);
    var cl := body + [UpperChar(c)];
    assert cl[..|cl| - 1] == body;
  }

  /** Without the dash the same holds: `body` followed by `c` is accepted exactly when `c`,
      upper-cased, is the body's check digit. */
  lemma ChileanRutNoDash(body: string, c: char)
    requires 7 <= |body| <= 8 && AllDigits(body) && c != '.' && c != '-'
    ensures ChileanRutValid(body + [c]) <==> UpperChar(c) == CheckDigit(body)
  {
    CleanRutOf(body, c, false);
    var cl := body + [UpperChar(c)];
    assert cl[..|cl| - 1] == body;
  }

  /** The weighted sum of the body 12345678 is 8·2 + 7·3 + 6·4 + 5·5 + 4·6 + 3·7 + 2·2 + 1·3
      = 138. */
  lemma ExampleBodySum()
    ensures WeightedSum("12345678") == 138
  {
  }

  /** 138 = 12·11 + 6, so the check digit of 12345678 is 11 − 6 = 5: by `ChileanRutWithDash`
      and `ChileanRutNoDash`, `12345678-5` and `123456785` are accepted and `12345678-K` is
      not. */
  lemma ExampleCheckDigit()
    ensures CheckDigit("12345678") == '5'
  {
    ExampleBodySum();
  }

  // ---------------------------------------------------------------- registration and login

  /** The message registration fails with, or None when the user is inserted. The checks run
      in the order written; the age is counted by the day-of-year rule registration uses. */
  function RegistrationError(
    users: seq<User>, userName: string, email: string, phone: string, rut: string,
    birth: Option<CalendarDate>, today: CalendarDate): (r: Option<string>)
    ensures r.None? <==>
      && FindByUserName(users, userName).None? && !EmailTaken(users, email)
      && !PhoneTaken(users, phone) && !RutTaken(users, rut) && ChileanRutValid(rut)
      && birth.Some? && AgeByDayOfYear(birth.value, today) >= MINIMUM_AGE
    ensures r == Some(USERNAME_TAKEN) <==> FindByUserName(users, userName).Some?
    ensures r == Some(EMAIL_TAKEN) <==> FindByUserName(users, userName).None? && EmailTaken(users, email)
    ensures r == Some(PHONE_TAKEN) <==>
      FindByUserName(users, userName).None? && !EmailTaken(users, email) && PhoneTaken(users, phone)
    ensures r == Some(RUT_TAKEN) <==>
      && FindByUserName(users, userName).None? && !EmailTaken(users, email)
      && !PhoneTaken(users, phone) && RutTaken(users, rut)
    ensures r == Some(RUT_INVALID) <==>
      && FindByUserName(users, userName).None? && !EmailTaken(users, email)
      && !PhoneTaken(users, phone) && !RutTaken(users, rut) && !ChileanRutValid(rut)
    ensures r == Some(DATE_INVALID) <==>
      && FindByUserName(users, userName).None? && !EmailTaken(users, email)
      && !PhoneTaken(users, phone) && !RutTaken(users, rut) && ChileanRutValid(rut)
      && birth.None?
    ensures r == Some(UNDER_AGE) <==>
      && FindByUserName(users, userName).None? && !EmailTaken(users, email)
      && !PhoneTaken(users, phone) && !RutTaken(users, rut) && ChileanRutValid(rut)
      && birth.Some? && AgeByDayOfYear(birth.value, today) < MINIMUM_AGE
  {
    if FindByUserName(users, userName).Some? then Some(USERNAME_TAKEN)
    else if EmailTaken(users, email) then Some(EMAIL_TAKEN)
    else if PhoneTaken(users, phone) then Some(PHONE_TAKEN)
    else if RutTaken(users, rut) then Some(RUT_TAKEN)
    else if !ChileanRutValid(rut) then Some(RUT_INVALID)
    else if birth.None? then Some(DATE_INVALID)
    else if AgeByDayOfYear(birth.value, today) < MINIMUM_AGE then Some(UNDER_AGE)
    else None
  }

  /** Registration as evidently intended: the same checks in the same order, with the age
      counted in completed years, so an applicant is refused as under age exactly while their
      eighteenth birthday is still to come. */
  function RegistrationErrorIntended(
    users: seq<User>, userName: string, email: string, phone: string, rut: string,
    birth: Option<CalendarDate>, today: CalendarDate): (r: Option<string>)
    ensures r.None? <==>
      && FindByUserName(users, userName).None? && !EmailTaken(users, email)
      && !PhoneTaken(users, phone) && !RutTaken(users, rut) && ChileanRutValid(rut)
      && birth.Some?
      && (birth.value.year + MINIMUM_AGE < today.year
          || (birth.value.year + MINIMUM_AGE == today.year && !EarlierInYear(today, birth.value)))
  {
    if FindByUserName(users, userName).Some? then Some(USERNAME_TAKEN)
    else if EmailTaken(users, email) then Some(EMAIL_TAKEN)
    else if PhoneTaken(users, phone) then Some(PHONE_TAKEN)
    else if RutTaken(users, rut) then Some(RUT_TAKEN)
    else if !ChileanRutValid(rut) then Some(RUT_INVALID)
    else if birth.None? then Some(DATE_INVALID)
    else if AgeInYears(birth.value, today) < MINIMUM_AGE then Some(UNDER_AGE)
    else None
  }

  /** The two agree whenever the birth year and the current year are of the same kind. */
  lemma RegistrationRulesAgree(
    users: seq<User>, userName: string, email: string, phone: string, rut: string,
    birth: Option<CalendarDate>, today: CalendarDate)
    requires birth.Some? ==> IsLeapYear(birth.value.year) == IsLeapYear(today.year)
    ensures RegistrationError(users, userName, email, phone, rut, birth, today)
         == RegistrationErrorIntended(users, userName, email, phone, rut, birth, today)
  {
    if birth.Some? {
      AgeRulesAgree(birth.value, today);
    }
  }

  /** An applicant born on 1 March 2008 who registers on 1 March 2026, with every other check
      passing, is refused as under age by the code as written, though the intended rule
      accepts them on their eighteenth birthday. */
  lemma RegistrationRefusesEighteenthBirthday(
    users: seq<User>, userName: string, email: string, phone: string, rut: string)
    requires FindByUserName(users, userName).None? && !EmailTaken(users, email)
    requires !PhoneTaken(users, phone) && !RutTaken(users, rut) && ChileanRutValid(rut)
    ensures RegistrationError(users, userName, email, phone, rut, Some(Date(2008, 3, 1)), Date(2026, 3, 1))
         == Some(UNDER_AGE)
    ensures RegistrationErrorIntended(users, userName, email, phone, rut, Some(Date(2008, 3, 1)), Date(2026, 3, 1))
         == None
  {
    AgeByDayOfYearMissesBirthday();
  }

  /** The row a successful registration inserts: the next id, the hashed password and the
      initial balance. */
  function NewUser(users: seq<User>, userName: string, hashed: string, email: string,
                   phone: string, rut: string, birth: Date): User
  {
    User(|users| + 1, userName, hashed, email, phone, rut, birth, INITIAL_BALANCE)
  }

  /** What a login attempt reports: success with the stored row when a user of that name
      exists and the password hashes match, the same error otherwise. */
  function LoginOutcome(users: seq<User>, userName: string, hashed: string): (r: AuthEvent)
    ensures r.LoginSuccess? || r == Error(LOGIN_FAILED)
    ensures r.LoginSuccess? ==> r.user in users && r.user.userName == userName && r.user.password == hashed
  {
    match FindByUserName(users, userName)
    case Some(u) => if u.password == hashed then LoginSuccess(u) else Error(LOGIN_FAILED)
    case None => Error(LOGIN_FAILED)
  }

  /** In a valid table, login succeeds with `u` exactly when `u` is the row with that name and
      its password hash matches. */
  lemma {:induction false} LoginIff(users: seq<User>, userName: string, hashed: string, u: User)
    requires TableValid(users)
    ensures LoginOutcome(users, userName, hashed) == LoginSuccess(u)
        <==> u in users && u.userName == userName && u.password == hashed
  {
    if u in users && u.userName == userName && u.password == hashed {
      var f := FindByUserName(users, userName);
      var i :| 0 <= i < |users| && users[i] == f.value;
      var j :| 0 <= j < |users| && users[j] == u;
      if i < j {
        assert false;
      } else if j < i {
        assert false;
      }
    }
  }

  /** A successful registration keeps the table valid. */
  lemma RegistrationKeepsTableValid(
    users: seq<User>, userName: string, hashed: string, email: string, phone: string,
    rut: string, birth: Option<CalendarDate>, today: CalendarDate)
    requires TableValid(users)
    requires RegistrationError(users, userName, email, phone, rut, birth, today).None?
    ensures TableValid(users + [NewUser(users, userName, hashed, email, phone, rut, birth.value)])
  {
    var u := NewUser(users, userName, hashed, email, phone, rut, birth.value);
    var t := users + [u];
    forall i, j | 0 <= i < j < |t|
      ensures t[i].userName != t[j].userName && t[i].email != t[j].email
      ensures t[i].phone != t[j].phone && t[i].rut != t[j].rut
    {
      if j == |users| {
        assert t[i] in users;
      }
    }
  }

  /** Registering and then logging in with the same name and password succeeds with the
      newly inserted row. */
  lemma RegisterThenLogin(
    users: seq<User>, userName: string, hashed: string, email: string, phone: string,
    rut: string, birth: Option<CalendarDate>, today: CalendarDate)
    requires RegistrationError(users, userName, email, phone, rut, birth, today).None?
    ensures var u := NewUser(users, userName, hashed, email, phone, rut, birth.value);
            LoginOutcome(users + [u], userName, hashed) == LoginSuccess(u)
  {
    FindAppended(users, NewUser(users, userName, hashed, email, phone, rut, birth.value));
  }

  class AuthViewModel {
    /** The `users` table. */
    var users: seq<User>
    /** The last authentication event published to the screens. */
    var authResult: AuthEvent
    /** SHA-256 of the password's bytes, as lower-case hex. */
    const hashPassword: string -> string
    /** `SimpleDateFormat("dd/MM/yyyy").parse`: None when the text does not parse. */
    const parseDate: string -> Option<CalendarDate>

    ghost predicate Valid()
      reads this
    {
      TableValid(users)
    }

    constructor (stored: seq<User>, hash: string -> string, parse: string -> Option<CalendarDate>)
      requires TableValid(stored)
      ensures Valid() && users == stored && authResult == Idle
      ensures hashPassword == hash && parseDate == parse
    {
      users := stored;
      authResult := Idle;
      hashPassword := hash;
      parseDate := parse;
    }

    /** `registerUser`: publishes the first failing check's message and leaves the table
        alone, or inserts the new user and publishes RegistrationSuccess. */
    method RegisterUser(userName: string, password: string, email: string, phone: string,
                        rut: string, birthDateStr: string, today: CalendarDate)
      requires Valid()
      modifies this
      ensures Valid()
      ensures var err := RegistrationError(old(users), userName, email, phone, rut, parseDate(birthDateStr), today);
              if err.Some? then
                authResult == Error(err.value) && users == old(users)
              else
                authResult == RegistrationSuccess
                && users == old(users) + [NewUser(old(users), userName, hashPassword(password), email,
                                                  phone, rut, parseDate(birthDateStr).value)]
    {
      if FindByUserName(users, userName).Some? {
        authResult := Error(USERNAME_TAKEN);
        return;
      }
      if EmailTaken(users, email) {
        authResult := Error(EMAIL_TAKEN);
        return;
      }
      if PhoneTaken(users, phone) {
        authResult := Error(PHONE_TAKEN);
        return;
      }
      if RutTaken(users, rut) {
        authResult := Error(RUT_TAKEN);
        return;
      }
      var rutOk := IsValidChileanRut(rut);
      if !rutOk {
        authResult := Error(RUT_INVALID);
        return;
      }
      var parsed := parseDate(birthDateStr);
      if parsed.None? {
        authResult := Error(DATE_INVALID);
        return;
      }
      var birthDate := parsed.value;
      var age := AgeByDayOfYear(birthDate, today);
      if age < MINIMUM_AGE {
        authResult := Error(UNDER_AGE);
        return;
      }
      var hashedPassword := hashPassword(password);
      RegistrationKeepsTableValid(users, userName, hashedPassword, email, phone, rut, parsed, today);
      users := users + [NewUser(users, userName, hashedPassword, email, phone, rut, birthDate)];
      authResult := RegistrationSuccess;
    }

    /** `loginUser`: publishes LoginSuccess with the stored row or the single login error. */
    method LoginUser(userName: string, password: string)
      requires Valid()
      modifies this
      ensures Valid() && users == old(users)
      ensures authResult == LoginOutcome(users, userName, hashPassword(password))
    {
      var user := FindByUserName(users, userName);
      var hashedPassword := hashPassword(password);
      if user.Some? && user.value.password == hashedPassword {
        authResult := LoginSuccess(user.value);
      } else {
        authResult := Error(LOGIN_FAILED);
      }
    }

    /** `resetAuthEvent`. */
    method ResetAuthEvent()
      modifies this
      ensures authResult == Idle && users == old(users)
    {
      authResult := Idle;
    }
  }

  /** A fresh registration followed by a login with the same credentials succeeds with the
      inserted row, and a login with a password of a different hash fails. */
  method RegisterAndLogin(
    stored: seq<User>, hash: string -> string, parse: string -> Option<CalendarDate>,
    userName: string, password: string, wrongPassword: string, email: string, phone: string,
    rut: string, birthDateStr: string, today: CalendarDate)
    returns (registered: AuthEvent, loggedIn: AuthEvent, rejected: AuthEvent)
    requires TableValid(stored)
    requires hash(wrongPassword) != hash(password)
    requires RegistrationError(stored, userName, email, phone, rut, parse(birthDateStr), today).None?
    ensures registered == RegistrationSuccess
    ensures loggedIn.LoginSuccess? && loggedIn.user.id == |stored| + 1
    ensures loggedIn.user.userName == userName && loggedIn.user.balance == INITIAL_BALANCE
    ensures rejected == Error(LOGIN_FAILED)
  {
    var vm := new AuthViewModel(stored, hash, parse);
    vm.RegisterUser(userName, password, email, phone, rut, birthDateStr, today);
    registered := vm.authResult;
    RegisterThenLogin(stored, userName, hash(password), email, phone, rut, parse(birthDateStr), today);
    vm.LoginUser(userName, password);
    loggedIn := vm.authResult;
    vm.LoginUser(userName, wrongPassword);
    rejected := vm.authResult;
  }
}
