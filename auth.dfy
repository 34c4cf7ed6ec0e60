/** The sign-in form: login and register modes, the password confirmation
    check made before any request, the choice of endpoint and body, and what
    each kind of answer does to the form, the stored token and the
    location. */
module Auth {
  import opened Common

  const PasswordMismatch := "A jelszavak nem egyeznek!"
  const RequestFailed := "Hiba történt a kérés során"
  const Registered := "Sikeres regisztráció! Most már bejelentkezhet."
  const LoggedIn := "Sikeres bejelentkezés!"

  /** The form's state: one field per `useState`. */
  datatype FormState = FormState(isLogin: bool, email: string, password: string,
                                 confirmPassword: string, error: string, success: string)

  /** The form as first rendered: login mode, every field empty. */
  const Initial := FormState(true, "", "", "", "", "")

  datatype Endpoint = Login | Register

  /** The JSON body; `confirmPassword` is present only when registering. */
  datatype RequestBody = RequestBody(email: string, password: string, confirmPassword: Option<string>)

  datatype AuthRequest = AuthRequest(endpoint: Endpoint, body: RequestBody)

  /** What a submit does: the new form, the request sent if any, the token
      written to storage if any, and whether the dashboard is opened. */
  datatype SubmitResult = SubmitResult(state: FormState, request: Option<AuthRequest>,
                                       storedToken: Option<string>, navigate: bool)

  /** Registering with two different passwords: caught before any request. */
  predicate PasswordsDiffer(s: FormState) {
    !s.isLogin && s.password != s.confirmPassword
  }

  /** The endpoint and body for the current mode and fields. */
  function RequestFor(s: FormState): (r: AuthRequest)
    ensures r.endpoint == Login <==> s.isLogin
    ensures r.body.email == s.email && r.body.password == s.password
    ensures r.body.confirmPassword.Some? <==> !s.isLogin
    ensures r.body.confirmPassword.Some? ==> r.body.confirmPassword.value == s.confirmPassword
  {
    AuthRequest(if s.isLogin then Login else Register,
                RequestBody(s.email, s.password, if s.isLogin then None else Some(s.confirmPassword)))
  }

  /** `handleSubmit`, given the answer the request would get: both notices are
      cleared; a mismatch stops there with its error; otherwise the request is
      sent, and a non-2xx answer or an exception shows the error, a
      registration switches to login mode and clears the passwords, and a
      login shows its notice and, when the answer carries a token, stores it
      and opens the dashboard. The answer to a login is `Ok` of its
      `access_token`, "" when absent. */
  function Submit(s: FormState, reply: Reply<string>): SubmitResult {
    var cleared := s.(error := "", success := "");
    if PasswordsDiffer(s) then
      SubmitResult(cleared.(error := PasswordMismatch), None, None, false)
    else
      var request := Some(RequestFor(s));
      match reply
      case Ok(token) =>
        if !s.isLogin then
          SubmitResult(cleared.(isLogin := true, success := Registered, password := "",
                                confirmPassword := ""), request, None, false)
        else if token != "" then
          SubmitResult(cleared.(success := LoggedIn), request, Some(token), true)
        else
          SubmitResult(cleared.(success := LoggedIn), request, None, false)
      case _ =>
        SubmitResult(cleared.(error := ErrorText(reply, RequestFailed)), request, None, false)
  }

  /** Every submit starts from clean notices: afterwards at most one of them
      is shown, and each holds a message of this submit. */
  lemma SubmitShowsOneNotice(s: FormState, reply: Reply<string>)
    ensures var r := Submit(s, reply).state;
            (r.error == "" || r.success == "") &&
            (r.success == "" || r.success == Registered || r.success == LoggedIn) &&
            (r.error == "" || r.error == PasswordMismatch ||
             (!reply.Ok? && r.error == ErrorText(reply, RequestFailed)))
  {
    var r := Submit(s, reply).state;
    if !PasswordsDiffer(s) && reply.Rejected? {
      assert r.error == ErrorText(reply, RequestFailed);
      assert r.error != "";
    }
  }

  /** A request is sent exactly when the passwords do not differ, and it is
      the one the mode and fields call for. A mismatch changes only the
      notices and does nothing else. */
  lemma MismatchBlocksRequest(s: FormState, reply: Reply<string>)
    ensures Submit(s, reply).request.Some? <==> !PasswordsDiffer(s)
    ensures !PasswordsDiffer(s) ==> Submit(s, reply).request == Some(RequestFor(s))
    ensures PasswordsDiffer(s) ==>
              Submit(s, reply) ==
              SubmitResult(s.(error := PasswordMismatch, success := ""), None, None, false)
  {
  }

  /** A failed request shows the server's message, or the fallback when it
      has none, and changes no field and no mode; nothing is stored. */
  lemma FailureKeepsForm(s: FormState, reply: Reply<string>)
    requires !PasswordsDiffer(s) && !reply.Ok?
    ensures Submit(s, reply).state == s.(error := ErrorText(reply, RequestFailed), success := "")
    ensures reply.Rejected? && reply.message != "" ==> Submit(s, reply).state.error == reply.message
    ensures reply.Rejected? && reply.message == "" ==> Submit(s, reply).state.error == RequestFailed
    ensures Submit(s, reply).storedToken == None && !Submit(s, reply).navigate
  {
  }

  /** A successful registration goes to login mode with the email kept, the
      passwords cleared and the registration notice; nothing is stored. */
  lemma RegisterSuccess(s: FormState, token: string)
    requires !s.isLogin && s.password == s.confirmPassword
    ensures Submit(s, Ok(token)).state ==
            FormState(true, s.email, "", "", "", Registered)
    ensures Submit(s, Ok(token)).request == Some(AuthRequest(Register,
              RequestBody(s.email, s.password, Some(s.password))))
    ensures Submit(s, Ok(token)).storedToken == None && !Submit(s, Ok(token)).navigate
  {
  }

  /** A successful login always shows its notice and leaves the fields; the
      token is stored, and the dashboard opened, exactly when the answer
      carries one. */
  lemma LoginSuccess(s: FormState, token: string)
    requires s.isLogin
    ensures Submit(s, Ok(token)).state == s.(error := "", success := LoggedIn)
    ensures Submit(s, Ok(token)).storedToken.Some? <==> token != ""
    ensures Submit(s, Ok(token)).navigate <==> token != ""
    ensures token != "" ==> Submit(s, Ok(token)).storedToken == Some(token)
  {
  }

  /** After a registration the next submit, with the password typed again,
      logs in with the same email and no confirmation field. */
  lemma RegisterThenLogin(s: FormState, token: string, password: string, reply: Reply<string>)
    requires !s.isLogin && s.password == s.confirmPassword
    ensures var next := Submit(s, Ok(token)).state.(password := password);
            Submit(next, reply).request == Some(AuthRequest(Login, RequestBody(s.email, password, None)))
  {
  }

  /** The two mode buttons. */
  function WithMode(s: FormState, isLogin: bool): (r: FormState)
    ensures r.isLogin == isLogin
    ensures r.(isLogin := s.isLogin) == s
  {
    s.(isLogin := isLogin)
  }

  /** Pressing a mode button twice is pressing it once; the other fields and
      the notices survive a switch. */
  lemma ModeButtonsIdempotent(s: FormState, isLogin: bool)
    ensures WithMode(WithMode(s, isLogin), isLogin) == WithMode(s, isLogin)
    ensures WithMode(WithMode(s, !isLogin), isLogin) == WithMode(s, isLogin)
  {
  }

  /** The mount effect: a stored, non-empty token sends the visitor on to the
      dashboard. */
  function RedirectOnMount(stored: Option<string>): (go: bool)
    ensures go <==> stored.Some? && stored.value != ""
  {
    HasToken(stored)
  }

  /** A login that stored a token makes the next mount redirect. */
  lemma LoginThenMountRedirects(s: FormState, token: string)
    requires s.isLogin && token != ""
    ensures RedirectOnMount(Submit(s, Ok(token)).storedToken)
  {
  }

  /** The component: its state fields and its handlers. */
  class AuthForm {
    var isLogin: bool
    var email: string
    var password: string
    var confirmPassword: string
    var error: string
    var success: string

    function State(): FormState
      reads this
    {
      FormState(isLogin, email, password, confirmPassword, error, success)
    }

    constructor ()
      ensures State() == Initial
    {
      isLogin, email, password, confirmPassword, error, success := true, "", "", "", "", "";
    }

    method Mount(stored: Option<string>) returns (redirect: bool)
      ensures redirect == RedirectOnMount(stored)
    {
      redirect := HasToken(stored);
    }

    method SetEmail(value: string)
      modifies this`email
      ensures email == value
    {
      email := value;
    }

    method SetPassword(value: string)
      modifies this`password
      ensures password == value
    {
      password := value;
    }

    method SetConfirmPassword(value: string)
      modifies this`confirmPassword
      ensures confirmPassword == value
    {
      confirmPassword := value;
    }

    method ShowLogin()
      modifies this`isLogin
      ensures State() == WithMode(old(State()), true)
    {
      isLogin := true;
    }

    method ShowRegister()
      modifies this`isLogin
      ensures State() == WithMode(old(State()), false)
    {
      isLogin := false;
    }

    /** The submit handler, one state update after the other. */
    method HandleSubmit(reply: Reply<string>)
      returns (request: Option<AuthRequest>, storedToken: Option<string>, navigate: bool)
      modifies this
      ensures SubmitResult(State(), request, storedToken, navigate) == Submit(old(State()), reply)
    {
      request, storedToken, navigate := None, None, false;
      error := "";
      success := "";
      if !isLogin && password != confirmPassword {
        error := PasswordMismatch;
        return;
      }
      var endpoint := if isLogin then Login else Register;
      var body := RequestBody(email, password, if isLogin then None else Some(confirmPassword));
      request := Some(AuthRequest(endpoint, body));
      match reply {
        case Ok(token) =>
          if !isLogin {
            isLogin := true;
            success := Registered;
            password := "";
            confirmPassword := "";
          } else {
            success := LoggedIn;
            if token != "" {
              storedToken := Some(token);
              navigate := true;
            }
          }
        case _ =>
          error := ErrorText(reply, RequestFailed);
      }
    }
  }
}
