/** The values the login and register routes send back, and the client
    side's reading of them (which field to focus). The bodies of
    `createUserSession` and `getUser` are not part of this model: a user is
    reduced to its identifier, and the redirect that `createUserSession`
    builds is the abstract case `UserSession`. */
module Responses {
  import opened Forms

  type UserId = string

  /** A user record as returned by `login`, `register` or `getUser`. */
  datatype User = User(id: UserId)

  const BadRequest: int := 400

  /** Per-field validation results: `None` is a validator's `undefined`. */
  type FieldErrorMap = map<string, Option<string>>

  /** What a route `action` returns. */
  datatype Response =
    | FormError(status: int, formError: string)
      // json({ formError }, { status })
    | FieldErrors(status: int, fieldErrors: FieldErrorMap, fields: map<string, string>)
      // json({ fieldErrors, fields }, { status })
    | AuthFailed(status: int, fields: map<string, string>, formError: string)
      // json({ fields, formError }, { status })
    | UserSession(userId: UserId, redirectTo: string)
      // createUserSession(userId, redirectTo)

  /** What a route `loader` returns. */
  datatype LoaderResult = Redirect(location: string) | NoData

  /** JavaScript truthiness of a validator's result. */
  predicate IsSet(o: Option<string>)
  {
    o.Some? && o.value != ""
  }

  /** `Object.values(fieldErrors).some(Boolean)` */
  predicate AnyError(m: FieldErrorMap)
  {
    exists k :: k in m && IsSet(m[k])
  }

  /** For the four-field record the registration action builds, some
      value is truthy exactly when one of the four is. */
  lemma AnyErrorOfFour(m: FieldErrorMap)
    requires m.Keys == {"email", "password", "firstName", "lastName"}
    ensures AnyError(m) <==>
      IsSet(m["email"]) || IsSet(m["password"]) || IsSet(m["firstName"]) || IsSet(m["lastName"])
  {
  }

  /** `actionData?.fieldErrors?.<name>` is truthy. */
  predicate HasFieldError(actionData: Option<Response>, name: string)
  {
    actionData.Some? && actionData.value.FieldErrors? &&
    name in actionData.value.fieldErrors && IsSet(actionData.value.fieldErrors[name])
  }

  /** `r` names the first field of `order` that has an error in
      `actionData`, or is `None` when none of them has one. */
  ghost predicate FirstErrored(order: seq<string>, actionData: Option<Response>, r: Option<string>)
  {
    (r.None? <==> forall i :: 0 <= i < |order| ==> !HasFieldError(actionData, order[i])) &&
    (r.Some? ==>
      exists i :: 0 <= i < |order| && order[i] == r.value && HasFieldError(actionData, order[i]) &&
        forall j :: 0 <= j < i ==> !HasFieldError(actionData, order[j]))
  }
}
