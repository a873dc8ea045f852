/** The registration form (ui/auth/RegisterScreen.kt): before anything reaches the view
    model, the register button refuses a form with a blank field, a password shorter than
    six characters, or a confirmation that differs, in that order; a form that passes is
    handed to registration with every text field trimmed and the password as typed. */
module RegisterScreen {
  import opened KotlinText
  import AuthViewModel

  /** The seven text fields of the form, as typed. */
  datatype RegisterForm = RegisterForm(
    username: string,
    password: string,
    confirmPassword: string,
    email: string,
    phone: string,
    rut: string,
    birthDate: string)

  /** The arguments of the `registerUser` call. */
  datatype Registration = Registration(
    userName: string,
    password: string,
    email: string,
    phone: string,
    rut: string,
    birthDateStr: string)

  datatype FormOutcome = Rejected(message: string) | Submit(registration: Registration)

  const ALL_REQUIRED: string := "Todos los campos son obligatorios."
  const PASSWORD_TOO_SHORT: string := "La contrase\U{00F1}a debe tener al menos 6 caracteres."
  const PASSWORDS_DIFFER: string := "Las contrase\U{00F1}as no coinciden."
  const MIN_PASSWORD_LENGTH: int := 6

  /** A field left empty: the trimmed text fields and the two password fields as typed. */
  predicate AnyFieldMissing(f: RegisterForm) {
    || Trim(f.username) == [] || f.password == [] || f.confirmPassword == []
    || Trim(f.email) == [] || Trim(f.phone) == [] || Trim(f.rut) == [] || Trim(f.birthDate) == []
  }

  /** The register button's checks and the call they guard. */
  function RegisterClick(f: RegisterForm): (r: FormOutcome)
    ensures r == Rejected(ALL_REQUIRED) <==> AnyFieldMissing(f)
    ensures r == Rejected(PASSWORD_TOO_SHORT) <==> !AnyFieldMissing(f) && Utf16Length(f.password) < MIN_PASSWORD_LENGTH
    ensures r == Rejected(PASSWORDS_DIFFER)
        <==> !AnyFieldMissing(f) && Utf16Length(f.password) >= MIN_PASSWORD_LENGTH && f.password != f.confirmPassword
    ensures r.Submit? <==>
      !AnyFieldMissing(f) && Utf16Length(f.password) >= MIN_PASSWORD_LENGTH && f.password == f.confirmPassword
    ensures r.Submit? ==>
      r.registration == Registration(Trim(f.username), f.password, Trim(f.email), Trim(f.phone), Trim(f.rut), Trim(f.birthDate))
  {
    if AnyFieldMissing(f) then Rejected(ALL_REQUIRED)
    else if Utf16Length(f.password) < MIN_PASSWORD_LENGTH then Rejected(PASSWORD_TOO_SHORT)
    else if f.password != f.confirmPassword then Rejected(PASSWORDS_DIFFER)
    else Submit(Registration(Trim(f.username), f.password, Trim(f.email), Trim(f.phone), Trim(f.rut), Trim(f.birthDate)))
  }

  /** A submitted form carries text fields that are neither blank nor padded, a password of
      at least six characters, and passes the form check again unchanged. */
  lemma SubmittedFieldsClean(f: RegisterForm)
    requires RegisterClick(f).Submit?
    ensures var g := RegisterClick(f).registration;
            && g.userName != [] && Trim(g.userName) == g.userName && !IsBlank(f.username)
            && g.email != [] && Trim(g.email) == g.email && !IsBlank(f.email)
            && g.phone != [] && Trim(g.phone) == g.phone && !IsBlank(f.phone)
            && g.rut != [] && Trim(g.rut) == g.rut && !IsBlank(f.rut)
            && g.birthDateStr != [] && Trim(g.birthDateStr) == g.birthDateStr && !IsBlank(f.birthDate)
            && Utf16Length(g.password) >= MIN_PASSWORD_LENGTH
            && RegisterClick(RegisterForm(g.userName, g.password, g.password, g.email, g.phone, g.rut, g.birthDateStr))
               == RegisterClick(f)
  {
    TrimIdempotent(f.username);
    TrimIdempotent(f.email);
    TrimIdempotent(f.phone);
    TrimIdempotent(f.rut);
    TrimIdempotent(f.birthDate);
    TrimEmptyIffBlank(f.username);
    TrimEmptyIffBlank(f.email);
    TrimEmptyIffBlank(f.phone);
    TrimEmptyIffBlank(f.rut);
    TrimEmptyIffBlank(f.birthDate);
  }

  /** The length check counts UTF-16 code units, as `String.length` does: a password of three
      characters beyond U+FFFF is six units long and is long enough. */
  lemma WideCharacterPassword(f: RegisterForm)
    requires !AnyFieldMissing(f)
    requires f.password == "\U{1F600}\U{1F600}\U{1F600}" && f.confirmPassword == f.password
    ensures |f.password| == 3 && RegisterClick(f).Submit?
  {
    ThreeWideCharacters();
  }

  /** Three characters beyond U+FFFF take six UTF-16 code units. */
  lemma ThreeWideCharacters()
    ensures |"\U{1F600}\U{1F600}\U{1F600}"| == 3 && Utf16Length("\U{1F600}\U{1F600}\U{1F600}") == 6
  {
    var e: string := "\U{1F600}";
    assert Utf16Length(e) == 2;
    assert "\U{1F600}\U{1F600}\U{1F600}" == e + e + e;
    Utf16LengthConcat(e, e);
    Utf16LengthConcat(e + e, e);
  }

  /** The button: a rejected form leaves the view model alone; an accepted one calls
      `registerUser` once, with the trimmed fields and the password as typed. */
  method OnRegisterClick(f: RegisterForm, vm: AuthViewModel.AuthViewModel, today: AuthViewModel.CalendarDate)
    returns (outcome: FormOutcome)
    requires vm.Valid()
    modifies vm
    ensures vm.Valid()
    ensures outcome == RegisterClick(f)
    ensures outcome.Rejected? ==> vm.users == old(vm.users) && vm.authResult == old(vm.authResult)
    ensures outcome.Submit? ==>
      var g := outcome.registration;
      var err := AuthViewModel.RegistrationError(old(vm.users), g.userName, g.email, g.phone, g.rut,
                                                 vm.parseDate(g.birthDateStr), today);
      if err.Some? then
        vm.authResult == AuthViewModel.Error(err.value) && vm.users == old(vm.users)
      else
        vm.authResult == AuthViewModel.RegistrationSuccess
        && vm.users == old(vm.users) + [AuthViewModel.NewUser(old(vm.users), g.userName, vm.hashPassword(g.password),
                                                             g.email, g.phone, g.rut, vm.parseDate(g.birthDateStr).value)]
  {
    outcome := RegisterClick(f);
    if outcome.Submit? {
      var g := outcome.registration;
      vm.RegisterUser(g.userName, g.password, g.email, g.phone, g.rut, g.birthDateStr, today);
    }
  }
}
