/** The login route: its loader, its two field validators, the decision
    cascade of its form action, and the choice of the field that receives
    focus after a failed submission. The external `login` and `getUser`
    calls are parameters: `login` maps the submitted credentials to a user
    or to nothing, and the loader receives what `getUser` resolved. */
module Login {
  import opened Forms
  import opened Responses

  const EmailError: string := "Invalid email address"
  const PasswordError: string := "Password must be at least 6 characters"
  const NotSubmitted: string := "Form not submitted correctly."
  const BadCredentials: string := "Email/Password combination is incorrect"

  /** The external credential check `login({ email, password })`. */
  type LoginFn = (string, string) -> Option<User>

  /** A visitor who is already signed in is sent to the home page; anyone
      else gets the form. */
  function Loader(user: Option<User>): (r: LoaderResult)
    ensures r == Redirect("/") <==> user.Some?
    ensures r == NoData <==> user.None?
  {
    if user.Some? then Redirect("/") else NoData
  }

  /** The email is too short or has no `@`. */
  predicate BadEmail(email: string)
  {
    |email| < 3 || '@' !in email
  }

  function ValidateEmail(email: string): (r: Option<string>)
    ensures r.Some? <==> BadEmail(email)
    ensures r.Some? ==> r.value == EmailError
  {
    IncludesChar(email, '@');
    if |email| < 3 || !Includes(email, "@") then Some(EmailError) else None
  }

  function ValidatePassword(password: string): (r: Option<string>)
    ensures r.Some? <==> |password| < 6
    ensures r.Some? ==> r.value == PasswordError
  {
    if |password| < 6 then Some(PasswordError) else None
  }

  /** `email` and `password` are strings and `redirectTo` is not a file:
      the form passes the action's first check. */
  predicate Submitted(form: FormData)
  {
    Get(form, "email").Str? && Get(form, "password").Str? && !Get(form, "redirectTo").FileEntry?
  }

  /** Where a successful login leads: the submitted `redirectTo` when it is
      a non-empty string, the home page otherwise. */
  function RedirectTarget(form: FormData): string
  {
    var e := Get(form, "redirectTo");
    if e.Str? && e.s != "" then e.s else "/"
  }

  /** The route's form action: it reads the form, refuses one whose
      credentials are not both strings or whose `redirectTo` is a file,
      and otherwise decides on the submitted text with `redirectTo`
      defaulted to the home page. */
  function Action(form: FormData, login: LoginFn): (r: Response)
    ensures r.FormError? <==> !Submitted(form)
    ensures r.FormError? ==> r == FormError(BadRequest, NotSubmitted)
    ensures Submitted(form) ==>
      r == Decide(Get(form, "email").s, Get(form, "password").s, RedirectTarget(form), login)
  {
    var email := Get(form, "email");
    var password := Get(form, "password");
    var redirectTo := Or(Get(form, "redirectTo"), "/");
    if !email.Str? || !password.Str? || !redirectTo.Str? then
      FormError(BadRequest, NotSubmitted)
    else
      Decide(email.s, password.s, redirectTo.s, login)
  }

  /** The rest of the action, once the form has passed its first check. */
  function Decide(email: string, password: string, redirectTo: string, login: LoginFn): (r: Response)
    ensures !r.FormError?
    // an invalid field gets per-field errors, with the submitted text echoed
    ensures r.FieldErrors? <==> BadEmail(email) || |password| < 6
    ensures r.FieldErrors? ==>
      r.status == BadRequest &&
      r.fields == map["email" := email, "password" := password] &&
      r.fieldErrors == map["email" := ValidateEmail(email), "password" := ValidatePassword(password)] &&
      r.fieldErrors.Keys == r.fields.Keys &&
      (IsSet(r.fieldErrors["email"]) <==> BadEmail(email)) &&
      (IsSet(r.fieldErrors["password"]) <==> |password| < 6)
    // valid fields go to the credential check; every failure there looks alike
    ensures r.AuthFailed? <==> !r.FieldErrors? && login(email, password).None?
    ensures r.AuthFailed? ==>
      r == AuthFailed(BadRequest, map["email" := email, "password" := password], BadCredentials)
    ensures r.UserSession? ==>
      login(email, password) == Some(User(r.userId)) && r.redirectTo == redirectTo
  {
    var fields := map["email" := email, "password" := password];
    var fieldErrors := map["email" := ValidateEmail(email), "password" := ValidatePassword(password)];
    if AnyError(fieldErrors) then
      FieldErrors(BadRequest, fieldErrors, fields)
    else
      assert !IsSet(fieldErrors["email"]) && !IsSet(fieldErrors["password"]);
      match login(email, password)
      case None => AuthFailed(BadRequest, fields, BadCredentials)
      case Some(user) => UserSession(user.id, redirectTo)
  }

  /** The field that receives focus once the action's data arrives. */
  function Focus(actionData: Option<Response>): (r: Option<string>)
    ensures FirstErrored(["email", "password"], actionData, r)
  {
    var order := ["email", "password"];
    if HasFieldError(actionData, "email") then
      assert order[0] == "email";
      Some("email")
    else if HasFieldError(actionData, "password") then
      assert order[1] == "password" && !HasFieldError(actionData, order[0]);
      Some("password")
    else None
  }

  /** `login` is consulted only once the form is well formed and valid:
      on the two earlier paths any credential check gives the same answer. */
  lemma CredentialCheckOnlyAfterValidation(form: FormData, login1: LoginFn, login2: LoginFn)
    requires Action(form, login1).FormError? || Action(form, login1).FieldErrors?
    ensures Action(form, login2) == Action(form, login1)
  {
  }

  /** The outcome of a well-formed, valid submission is decided by what
      `login` answers for the submitted credentials, and by nothing else it
      might answer for others. */
  lemma OutcomeDependsOnlyOnSubmittedCredentials(form: FormData, login1: LoginFn, login2: LoginFn)
    requires Submitted(form)
    requires login1(Get(form, "email").s, Get(form, "password").s) ==
             login2(Get(form, "email").s, Get(form, "password").s)
    ensures Action(form, login1) == Action(form, login2)
  {
  }

  /** Every rejected credential pair gets the same message, so a client
      cannot tell an unknown email from a wrong password. */
  lemma FailureIsUniform(form1: FormData, login1: LoginFn, form2: FormData, login2: LoginFn)
    requires Action(form1, login1).AuthFailed? && Action(form2, login2).AuthFailed?
    ensures Action(form1, login1).formError == Action(form2, login2).formError == BadCredentials
    ensures Action(form1, login1).status == Action(form2, login2).status == BadRequest
  {
  }

  /** Focus moves exactly when the action answered with field errors, and
      then to the email field precisely when the email was rejected. */
  lemma FocusFollowsAction(form: FormData, login: LoginFn)
    ensures Focus(Some(Action(form, login))).Some? <==> Action(form, login).FieldErrors?
    ensures Action(form, login).FieldErrors? ==>
      (Focus(Some(Action(form, login))) == Some("email") <==>
       BadEmail(Get(form, "email").s))
  {
  }
}
