/** The sign-in / sign-up page: the two forms' validation rules, the
    "username already exists" gate on registration, the form reset after a
    successful registration and switching between the two modes. Submits
    that await the server are split into a begin and a finish step; the
    150 ms fade before a mode switch takes effect is collapsed into the
    switch. */
module Authentication {
  import opened Common

  datatype AuthMode = Login | Register

  datatype RegistrationValues = RegistrationValues(username: string, email: string, password: string)
  datatype LoginValues = LoginValues(username: string, password: string)

  datatype Severity = Success | Error
  datatype Snackbar = Snackbar(message: string, severity: Severity)

  const EmptyRegistration := RegistrationValues("", "", "")
  const EmptyLogin := LoginValues("", "")

  predicate IsAsciiAlnum(c: char) {
    ('a' <= c <= 'z') || ('A' <= c <= 'Z') || ('0' <= c <= '9')
  }

  /** `/^[a-zA-Z0-9]+$/.test(s)`. */
  predicate AllAlnum(s: string) {
    s != [] && forall i :: 0 <= i < |s| ==> IsAsciiAlnum(s[i])
  }

  /** The registration username rule: trimmed first, then required, then
      only ASCII letters and digits. */
  function UsernameError(u: string): (e: Option<string>)
    ensures e.None? <==> AllAlnum(Trim(u))
    ensures IsBlank(u) ==> e == Some("Username is required")
  {
    if Trim(u) == [] then Some("Username is required")
    else if !AllAlnum(Trim(u)) then Some("Username can only contain letters and numbers")
    else None
  }

  /** Surrounding white space is forgiven, inner white space is not. */
  lemma AcceptedUsernameHasNoInnerSpace(u: string)
    requires UsernameError(u).None?
    ensures forall i :: 0 <= i < |Trim(u)| ==> !IsWhitespace(Trim(u)[i])
  {
  }

  /** `yup.string().required()`: the empty string is missing. */
  predicate Present(s: string) {
    s != ""
  }

  /** The email rule: required, and well-formed by the library's own test,
      which is an input here. */
  function EmailError(email: string, wellFormed: bool): (e: Option<string>)
    ensures e.None? <==> Present(email) && wellFormed
  {
    if !Present(email) then Some("Email is required")
    else if !wellFormed then Some("Enter a valid email")
    else None
  }

  /** The registration form passes when its username, once trimmed, is
      letters and digits only, its email is given and well-formed, and a
      password is given. */
  function RegistrationValid(v: RegistrationValues, emailWellFormed: bool): (ok: bool)
    ensures ok <==> AllAlnum(Trim(v.username)) && v.email != "" && emailWellFormed && v.password != ""
    ensures ok ==> !IsBlank(v.username)
  {
    UsernameError(v.username).None? && EmailError(v.email, emailWellFormed).None? && Present(v.password)
  }

  /** The login form only asks that both fields be non-empty; a username of
      spaces alone passes. */
  function LoginValid(v: LoginValues): (ok: bool)
    ensures ok <==> v.username != "" && v.password != ""
  {
    Present(v.username) && Present(v.password)
  }

  /** A registration valid by its rules is valid for the login form too. */
  lemma RegistrationIsStricter(v: RegistrationValues, emailWellFormed: bool)
    requires RegistrationValid(v, emailWellFormed)
    ensures LoginValid(LoginValues(v.username, v.password))
  {
    assert Trim(v.username) != [];
  }

  /** The stricter rule is strictly stricter: a username of one space is
      accepted at login and refused at registration. */
  lemma SpaceUsernameOnlyLogsIn(email: string, password: string)
    requires email != "" && password != ""
    ensures LoginValid(LoginValues(" ", password))
    ensures !RegistrationValid(RegistrationValues(" ", email, password), true)
  {
    BlankIffAllWhitespace(" ");
  }

  class AuthPage {
    var mode: AuthMode
    var loading: bool
    var showPassword: bool
    var usernameExists: bool
    var registration: RegistrationValues
    var login: LoginValues
    var snackbar: Option<Snackbar>

    constructor()
      ensures mode == Login && !loading && !showPassword && !usernameExists
      ensures registration == EmptyRegistration && login == EmptyLogin && snackbar.None?
    {
      mode := Login;
      loading := false;
      showPassword := false;
      usernameExists := false;
      registration := EmptyRegistration;
      login := EmptyLogin;
      snackbar := None;
    }

    method EditRegistration(v: RegistrationValues)
      modifies this
      ensures registration == v && login == old(login) && mode == old(mode) && usernameExists == old(usernameExists)
      ensures loading == old(loading) && showPassword == old(showPassword) && snackbar == old(snackbar)
    {
      registration := v;
    }

    method EditLogin(v: LoginValues)
      modifies this
      ensures login == v && registration == old(registration) && mode == old(mode) && usernameExists == old(usernameExists)
      ensures loading == old(loading) && showPassword == old(showPassword) && snackbar == old(snackbar)
    {
      login := v;
    }

    /** The debounced availability check reports its answer. */
    method UsernameChecked(exists_: bool)
      modifies this
      ensures usernameExists == exists_ && registration == old(registration) && login == old(login)
      ensures mode == old(mode) && loading == old(loading) && snackbar == old(snackbar)
    {
      usernameExists := exists_;
    }

    method TogglePassword()
      modifies this
      ensures showPassword == !old(showPassword) && registration == old(registration) && login == old(login)
      ensures mode == old(mode) && usernameExists == old(usernameExists) && loading == old(loading)
    {
      showPassword := !showPassword;
    }

    /** Nothing is submitted while a submit is pending (the button is
        disabled); an invalid form is not submitted; a taken username shows
        an error and sends nothing; otherwise the values as entered go to
        `onRegistration`. */
    method BeginRegistration(emailWellFormed: bool) returns (call: Option<RegistrationValues>)
      modifies this
      ensures old(loading) ==> call.None? && snackbar == old(snackbar) && loading
      ensures !old(loading) && !RegistrationValid(old(registration), emailWellFormed) ==>
        call.None? && snackbar == old(snackbar) && !loading
      ensures !old(loading) && RegistrationValid(old(registration), emailWellFormed) && old(usernameExists) ==>
        call.None? && !loading && snackbar == Some(Snackbar("Username already exists. Please choose another one.", Error))
      ensures !old(loading) && RegistrationValid(old(registration), emailWellFormed) && !old(usernameExists) ==>
        call == Some(old(registration)) && loading && snackbar == old(snackbar)
      ensures registration == old(registration) && login == old(login) && mode == old(mode)
      ensures usernameExists == old(usernameExists) && showPassword == old(showPassword)
    {
      call := None;
      if loading || !RegistrationValid(registration, emailWellFormed) {
        return;
      }
      if usernameExists {
        snackbar := Some(Snackbar("Username already exists. Please choose another one.", Error));
        return;
      }
      loading := true;
      call := Some(registration);
    }

    /** Only a successful registration clears the form. */
    method FinishRegistration(outcome: SaveOutcome)
      modifies this
      ensures !loading
      ensures outcome == Returned(true) ==> (registration == EmptyRegistration
        && snackbar == Some(Snackbar("Sign up successful!", Success)))
      ensures outcome == Returned(false) ==> (registration == old(registration)
        && snackbar == Some(Snackbar("Sign up failed! Please try again.", Error)))
      ensures outcome.Threw? ==> (registration == old(registration)
        && snackbar == Some(Snackbar("An error occurred during sign up.", Error)))
      ensures login == old(login) && mode == old(mode) && usernameExists == old(usernameExists)
      ensures showPassword == old(showPassword)
    {
      match outcome {
        case Returned(ok) =>
          if ok {
            snackbar := Some(Snackbar("Sign up successful!", Success));
            registration := EmptyRegistration;
          } else {
            snackbar := Some(Snackbar("Sign up failed! Please try again.", Error));
          }
        case Threw(_) =>
          snackbar := Some(Snackbar("An error occurred during sign up.", Error));
      }
      loading := false;
    }

    /** Nothing is submitted while a submit is pending or with an empty
        field; otherwise the values as entered go to `onLogin`. */
    method BeginLogin() returns (call: Option<LoginValues>)
      modifies this
      ensures (call.Some? <==> !old(loading) && LoginValid(old(login))) && loading == (old(loading) || call.Some?)
      ensures call.Some? ==> call.value == old(login)
      ensures registration == old(registration) && login == old(login) && mode == old(mode)
      ensures usernameExists == old(usernameExists) && snackbar == old(snackbar)
    {
      call := None;
      if loading || !LoginValid(login) {
        return;
      }
      loading := true;
      call := Some(login);
    }

    /** The login form is never reset; a thrown error shows the sign-up
        failure text. */
    method FinishLogin(outcome: SaveOutcome)
      modifies this
      ensures !loading
      ensures outcome == Returned(true) ==> snackbar == Some(Snackbar("Sign in successful!", Success))
      ensures outcome == Returned(false) ==> snackbar == Some(Snackbar("Sign in failed! Please check your credentials.", Error))
      ensures outcome.Threw? ==> snackbar == Some(Snackbar("Sign up failed! Please try again.", Error))
      ensures registration == old(registration) && login == old(login) && mode == old(mode)
      ensures usernameExists == old(usernameExists) && showPassword == old(showPassword)
    {
      match outcome {
        case Returned(ok) =>
          snackbar := Some(if ok then Snackbar("Sign in successful!", Success)
                           else Snackbar("Sign in failed! Please check your credentials.", Error));
        case Threw(_) =>
          snackbar := Some(Snackbar("Sign up failed! Please try again.", Error));
      }
      loading := false;
    }

    /** A toggle to no mode, or to the current one, does nothing; any other
        switch empties both forms and clears the availability flag and the
        password visibility. */
    method ChangeMode(newMode: Option<AuthMode>)
      modifies this
      ensures newMode.None? || newMode == Some(old(mode)) ==>
        mode == old(mode) && registration == old(registration) && login == old(login)
        && usernameExists == old(usernameExists) && showPassword == old(showPassword)
      ensures newMode.Some? && newMode.value != old(mode) ==>
        mode == newMode.value && registration == EmptyRegistration && login == EmptyLogin
        && !usernameExists && !showPassword
      ensures loading == old(loading) && snackbar == old(snackbar)
    {
      if newMode.Some? && newMode.value != mode {
        mode := newMode.value;
        registration := EmptyRegistration;
        login := EmptyLogin;
        usernameExists := false;
        showPassword := false;
      }
    }
  }

  /** A taken username blocks any number of attempts until the check
      reports otherwise or the mode is switched. */
  method TakenUsernameBlocksRetry(p: AuthPage, emailWellFormed: bool) returns (first: Option<RegistrationValues>, second: Option<RegistrationValues>)
    requires p.usernameExists
    modifies p
    ensures first.None? && second.None?
  {
    first := p.BeginRegistration(emailWellFormed);
    second := p.BeginRegistration(emailWellFormed);
  }
}
