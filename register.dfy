/** The registration route: its loader, its three field validators, the
    decision cascade of its form action, and the choice of the field that
    receives focus after a failed submission. The external `register` and
    `getUser` calls are parameters, as on the login route. */
module Register {
  import opened Forms
  import opened Responses
  import Login

  const EmailError: string := "Invalid email address"
  const PasswordError: string := "Password must be at least 6 characters"
  const NameError: string := "Name must be at least 2 characters"
  const NotSubmitted: string := "Form not submitted correctly."
  const CreateFailed: string := "Something went wrong trying to create a new user."

  /** The external account creation
      `register({ email, password, firstName, lastName })`. */
  type RegisterFn = (string, string, string, string) -> Option<User>

  /** A visitor who is already signed in is sent to the home page; anyone
      else gets the form. */
  function Loader(user: Option<User>): (r: LoaderResult)
    ensures r == Redirect("/") <==> user.Some?
    ensures r == NoData <==> user.None?
  {
    if user.Some? then Redirect("/") else NoData
  }

  /** The email is too short or has no `@`. */
  predicate BadEmail(email: string)
  {
    |email| < 3 || '@' !in email
  }

  function ValidateEmail(email: string): (r: Option<string>)
    ensures r.Some? <==> BadEmail(email)
    ensures r.Some? ==> r.value == EmailError
  {
    IncludesChar(email, '@');
    if |email| < 3 || !Includes(email, "@") then Some(EmailError) else None
  }

  function ValidatePassword(password: string): (r: Option<string>)
    ensures r.Some? <==> |password| < 6
    ensures r.Some? ==> r.value == PasswordError
  {
    if |password| < 6 then Some(PasswordError) else None
  }

  function ValidateName(name: string): (r: Option<string>)
    ensures r.Some? <==> |name| < 2
    ensures r.Some? ==> r.value == NameError
  {
    if |name| < 2 then Some(NameError) else None
  }

  /** The copies of the email and password validators on the two routes
      give the same verdict and the same message on every input. */
  lemma ValidatorsAgree(email: string, password: string)
    ensures ValidateEmail(email) == Login.ValidateEmail(email)
    ensures ValidatePassword(password) == Login.ValidatePassword(password)
  {
  }

  /** All four fields are strings and `redirectTo` is not a file: the form
      passes the action's first check. */
  predicate Submitted(form: FormData)
  {
    Get(form, "email").Str? && Get(form, "password").Str? &&
    Get(form, "firstName").Str? && Get(form, "lastName").Str? &&
    !Get(form, "redirectTo").FileEntry?
  }

  /** The text the form holds for field `name`. */
  function FieldText(form: FormData, name: string): string
    requires Get(form, name).Str?
  {
    Get(form, name).s
  }

  /** Where a successful registration leads: the submitted `redirectTo`
      when it is a non-empty string, the home page otherwise. */
  function RedirectTarget(form: FormData): string
  {
    var e := Get(form, "redirectTo");
    if e.Str? && e.s != "" then e.s else "/"
  }

  /** The route's form action: it reads the form, refuses one with a
      non-string field or a file as `redirectTo`, and otherwise decides on
      the submitted text with `redirectTo` defaulted to the home page. */
  function Action(form: FormData, register: RegisterFn): (r: Response)
    ensures r.FormError? <==> !Submitted(form)
    ensures r.FormError? ==> r == FormError(BadRequest, NotSubmitted)
    ensures Submitted(form) ==>
      r == Decide(FieldText(form, "email"), FieldText(form, "password"), FieldText(form, "firstName"),
                  FieldText(form, "lastName"), RedirectTarget(form), register)
  {
    var email := Get(form, "email");
    var password := Get(form, "password");
    var firstName := Get(form, "firstName");
    var lastName := Get(form, "lastName");
    var redirectTo := Or(Get(form, "redirectTo"), "/");
    if !email.Str? || !password.Str? || !firstName.Str? || !lastName.Str? || !redirectTo.Str? then
      FormError(BadRequest, NotSubmitted)
    else
      Decide(email.s, password.s, firstName.s, lastName.s, redirectTo.s, register)
  }

  /** The submitted text that every 400 response after the first check
      echoes back. */
  function Fields(email: string, password: string, firstName: string, lastName: string): map<string, string>
  {
    map["email" := email, "password" := password, "firstName" := firstName, "lastName" := lastName]
  }

  /** Some field fails its validator. */
  predicate Invalid(email: string, password: string, firstName: string, lastName: string)
  {
    BadEmail(email) || |password| < 6 || |firstName| < 2 || |lastName| < 2
  }

  /** The rest of the action, once the form has passed its first check. */
  function Decide(email: string, password: string, firstName: string, lastName: string,
                  redirectTo: string, register: RegisterFn): (r: Response)
    ensures !r.FormError?
    // an invalid field gets per-field errors, with the submitted text echoed
    ensures r.FieldErrors? <==> Invalid(email, password, firstName, lastName)
    ensures r.FieldErrors? ==>
      r.status == BadRequest &&
      r.fields == Fields(email, password, firstName, lastName) &&
      r.fieldErrors == map["email" := ValidateEmail(email), "password" := ValidatePassword(password),
                           "firstName" := ValidateName(firstName), "lastName" := ValidateName(lastName)] &&
      r.fieldErrors.Keys == r.fields.Keys &&
      (IsSet(r.fieldErrors["email"]) <==> BadEmail(email)) &&
      (IsSet(r.fieldErrors["password"]) <==> |password| < 6) &&
      (IsSet(r.fieldErrors["firstName"]) <==> |firstName| < 2) &&
      (IsSet(r.fieldErrors["lastName"]) <==> |lastName| < 2)
    // valid fields go to account creation, whose failures all look alike
    ensures r.AuthFailed? <==> !r.FieldErrors? && register(email, password, firstName, lastName).None?
    ensures r.AuthFailed? ==>
      r == AuthFailed(BadRequest, Fields(email, password, firstName, lastName), CreateFailed)
    ensures r.UserSession? ==>
      register(email, password, firstName, lastName) == Some(User(r.userId)) &&
      r.redirectTo == redirectTo
  {
    var fields := Fields(email, password, firstName, lastName);
    var fieldErrors := map["email" := ValidateEmail(email), "password" := ValidatePassword(password),
                           "firstName" := ValidateName(firstName), "lastName" := ValidateName(lastName)];
    AnyErrorOfFour(fieldErrors);
    if AnyError(fieldErrors) then
      FieldErrors(BadRequest, fieldErrors, fields)
    else
      match register(email, password, firstName, lastName)
      case None => AuthFailed(BadRequest, fields, CreateFailed)
      case Some(user) => UserSession(user.id, redirectTo)
  }

  /** The order in which the form lays out its fields, and in which focus
      looks for the first one with an error. */
  const FocusOrder: seq<string> := ["firstName", "lastName", "email", "password"]

  /** The field that receives focus once the action's data arrives. */
  function Focus(actionData: Option<Response>): (r: Option<string>)
    ensures FirstErrored(FocusOrder, actionData, r)
  {
    if HasFieldError(actionData, "firstName") then
      assert FocusOrder[0] == "firstName";
      Some("firstName")
    else if HasFieldError(actionData, "lastName") then
      assert FocusOrder[1] == "lastName";
      Some("lastName")
    else if HasFieldError(actionData, "email") then
      assert FocusOrder[2] == "email";
      Some("email")
    else if HasFieldError(actionData, "password") then
      assert FocusOrder[3] == "password";
      Some("password")
    else None
  }

  /** `register` is consulted only once the form is well formed and valid:
      on the two earlier paths any account store gives the same answer. */
  lemma CreationOnlyAfterValidation(form: FormData, register1: RegisterFn, register2: RegisterFn)
    requires Action(form, register1).FormError? || Action(form, register1).FieldErrors?
    ensures Action(form, register2) == Action(form, register1)
  {
  }

  /** On the email and password fields the registration form reports
      exactly the errors the login form would report for the same text. */
  lemma SharedFieldsAgreeWithLogin(form: FormData, register: RegisterFn, login: Login.LoginFn)
    requires Action(form, register).FieldErrors? && Login.Action(form, login).FieldErrors?
    ensures Action(form, register).fieldErrors["email"] == Login.Action(form, login).fieldErrors["email"]
    ensures Action(form, register).fieldErrors["password"] == Login.Action(form, login).fieldErrors["password"]
  {
  }

  /** Focus moves exactly when the action answered with field errors, and
      then to a name field whenever a name was rejected. */
  lemma FocusFollowsAction(form: FormData, register: RegisterFn)
    ensures Focus(Some(Action(form, register))).Some? <==> Action(form, register).FieldErrors?
    ensures Action(form, register).FieldErrors? ==>
      (Focus(Some(Action(form, register))) in {Some("firstName"), Some("lastName")} <==>
       |FieldText(form, "firstName")| < 2 || |FieldText(form, "lastName")| < 2)
  {
  }
}
