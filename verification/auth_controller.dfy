/** `AuthController`: the registration checks in front of `register`, and the login branch. */
module AuthActions {
  import opened Calendar
  import opened Decimal
  import opened UserAuth
  import opened Http

  const USERNAME_TOO_SHORT := "Username must be at least 4 characters long!"
  const PASSWORD_TOO_SHORT := "Password must have at least 8 characters!"
  const PASSWORD_WITHOUT_DIGIT := "Password must contain at least one number"
  const WRONG_CREDENTIALS := "Wrong username or password"

  /** `preg_match('/[0-9]/', s)`: some character of `s` is a decimal digit. */
  predicate HasDigit(s: string) {
    exists i :: 0 <= i < |s| && IsDigit(s[i])
  }

  /**
   * The errors `register` collects: a short username under `username`;
   * under `password` the length message, overwritten by the digit message
   * when the password has no digit.
   */
  function RegistrationErrors(username: string, password: string): map<string, string> {
    var e0: map<string, string> := map[];
    var e1 := if |username| < 4 then e0["username" := USERNAME_TOO_SHORT] else e0;
    var e2 := if |password| < 8 then e1["password" := PASSWORD_TOO_SHORT] else e1;
    if !HasDigit(password) then e2["password" := PASSWORD_WITHOUT_DIGIT] else e2
  }

  /** Whether the submitted credentials pass every check. */
  predicate RegistrationAccepted(username: string, password: string) {
    |username| >= 4 && |password| >= 8 && HasDigit(password)
  }

  /**
   * `username` is an error exactly when the name is shorter than 4;
   * `password` exactly when the password is shorter than 8 or has no digit,
   * with the digit message winning when both fail; nothing else is
   * reported, and there are no errors exactly when all three rules hold.
   */
  lemma RegistrationErrorsMeaning(username: string, password: string)
    ensures var errors := RegistrationErrors(username, password);
            && errors.Keys <= {"username", "password"}
            && ("username" in errors <==> |username| < 4)
            && ("username" in errors ==> errors["username"] == USERNAME_TOO_SHORT)
            && ("password" in errors <==> |password| < 8 || !HasDigit(password))
            && (!HasDigit(password) ==> errors["password"] == PASSWORD_WITHOUT_DIGIT)
            && (HasDigit(password) && |password| < 8 ==> errors["password"] == PASSWORD_TOO_SHORT)
            && (|errors| == 0 <==> RegistrationAccepted(username, password))
  {
    var errors := RegistrationErrors(username, password);
    if !RegistrationAccepted(username, password) {
      var key := if |username| < 4 then "username" else "password";
      assert key in errors.Keys;
    }
  }

  /** The checks of `register`, assigning into the errors map one check at a time. */
  method ValidateRegistration(username: string, password: string) returns (errors: map<string, string>)
    ensures errors == RegistrationErrors(username, password)
  {
    errors := map[];
    if |username| < 4 {
      errors := errors["username" := USERNAME_TOO_SHORT];
    }
    if |password| < 8 {
      errors := errors["password" := PASSWORD_TOO_SHORT];
    }
    if !HasDigit(password) {
      errors := errors["password" := PASSWORD_WITHOUT_DIGIT];
    }
  }

  /** The answer of `login` for the result of `attempt`. */
  function LoginOutcome(loggedIn: bool): (r: Response)
    ensures r.Redirect? <==> loggedIn
    ensures r.Redirect? ==> r.location == "/" && r.status == 302
    ensures r.Render? ==> r.template == "auth/login.twig" && "error" in r.fields && r.fields["error"] == WRONG_CREDENTIALS
  {
    if !loggedIn then Render("auth/login.twig", 200, map[], map["error" := WRONG_CREDENTIALS])
    else Redirect("/", 302)
  }

  class AuthController {
    const authService: AuthService

    constructor (authService: AuthService)
      ensures this.authService == authService
    {
      this.authService := authService;
    }

    /**
     * `register`: with any error, 400 and the form again with the submitted
     * name and password, and no registration; with none, one registration
     * and a redirect to the login page.
     */
    method Register(username: string, password: string, now: Date) returns (response: Response)
      modifies authService.users
      ensures var errors := RegistrationErrors(username, password);
              if |errors| > 0 then
                && response == Render("auth/register.twig", 400, errors, map["username" := username, "password" := password])
                && authService.users.users == old(authService.users.users)
              else
                && response == Redirect("/login", 302)
                && authService.users.users
                   == RegisterSpec(old(authService.users.users), username, password, authService.passwordHash, now).0
    {
      var errors := ValidateRegistration(username, password);
      if |errors| > 0 {
        return Render("auth/register.twig", 400, errors, map["username" := username, "password" := password]);
      }
      var user := authService.Register(username, password, now);
      response := Redirect("/login", 302);
    }

    /** `login`: since `attempt` accepts everyone, always the redirect to the home page. */
    method Login(username: string, password: string) returns (response: Response)
      ensures response == LoginOutcome(true)
      ensures response == Redirect("/", 302)
    {
      var loggedIn := authService.Attempt(username, password);
      response := LoginOutcome(loggedIn);
    }
  }
}
