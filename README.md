# A Dafny model of the morgan-app login, registration and product routes

morgan-app is a server-rendered fitness web application built with Remix,
Mantine and Prisma. Almost all of it is rendering and database access. This
project models the parts that make decisions:

- **Login route** (`app/routes/login.tsx`). The loader sends an
  authenticated visitor to `/`. The form action reads `email`, `password` and
  `redirectTo` and runs a fixed cascade: a 400 form error for a malformed
  form, a 400 with per-field errors and the echoed fields for invalid input,
  a 400 with one generic message when the credential check finds no user,
  and otherwise a session for the user that redirects to `redirectTo`
  (default `/`). After a failed submission the page focuses the first field
  that has an error.
- **Registration route** (`app/routes/register.tsx`). It has the same
  shape with four text fields, a name validator and its own generic failure
  message. Focus follows the order the form lays out its fields.
- **Products route** (`app/routes/products._index.tsx`). The loader builds
  the list of distinct categories in first-occurrence order. The page
  narrows the listing to the selected category. The category picker updates
  the selection and the URL's `category` parameter together.

Modules:
- `Forms` (`forms.dfy`) models the web platform pieces the actions use:
  `FormData.get` returns the first part with a name, `||` uses JavaScript
  truthiness, and there is `String.prototype.includes`.
- `Responses` (`responses.dfy`) holds the response shapes the actions
  return, the truthiness of validator results, and the "first field with
  an error" definition.
- `Login`, `Register` and `Products` hold one route each.

The external calls `login`, `register`, `getUser` and `createUserSession`
are inputs, because their module (`~/utils/session.server`) is not part of
this model:
- `login` and `register` are function parameters whose result is a user
  or nothing.
- The loaders take what `getUser` resolved.
- The response `createUserSession(user.id, redirectTo)` is the abstract
  case `UserSession(userId, redirectTo)`.

Each route's action is split in two:
- `Action` reads the form and applies the first check: every field must be
  a string, and `redirectTo` must not be a file.
- `Decide` takes the submitted text and runs the rest of the cascade.

The validators appear twice, as in the source, and a lemma proves that the
copies agree.

Strings are `seq<char>`, and a Dafny `char` is a Unicode scalar value. The
model's lengths agree with JavaScript's `length`, which counts UTF-16 code
units, only for text in the Basic Multilingual Plane, where one character
is one code unit. The model assumes such text.

Both actions echo the password back in `fields` (login.tsx:50,57,64;
register.tsx:60,69,76), and the page uses it as the input's default value
(login.tsx:123; register.tsx:165).

## Model

| member | source | states |
|---|---|---|
| `Forms.Get` | app/routes/login.tsx:35-37 | `form.get(name)` is `null` exactly when no part has that name. Otherwise it is the value of the first part with that name. |
| `Forms.Or` | app/routes/login.tsx:37 | The default for `redirectTo`: a missing or empty entry becomes the fallback, and a non-empty string or a file is kept. |
| `Forms.IncludesChar` | app/routes/login.tsx:22 | `s.includes(c)`, for a one-character `c`, holds exactly when `c` occurs in `s`. |
| `Login.Loader` | app/routes/login.tsx:15-19 | The loader redirects to `/` exactly when `getUser` resolved a user, and returns no data otherwise. |
| `Login.ValidateEmail` | app/routes/login.tsx:21-25 | An email gets an error exactly when it is shorter than 3 or has no `@`. The message is always `Invalid email address`. |
| `Login.ValidatePassword` | app/routes/login.tsx:27-31 | A password gets an error exactly when it is shorter than 6. The message is fixed. |
| `Login.Action` | app/routes/login.tsx:33-48 | The answer is the 400 `Form not submitted correctly.` exactly when `email` or `password` is not a string or `redirectTo` is a file. Otherwise it is the decision on the submitted text, with `redirectTo` defaulted to `/` when missing or empty. |
| `Login.Decide` | app/routes/login.tsx:50-71 | Field errors come back exactly when the email or password is invalid. They have status 400 and echo both fields. Each of the keys `email` and `password` holds what that field's validator returns, so it is set, with the validator's message, exactly when that field is invalid. A generic failure comes back exactly when the input is valid and `login` finds no user. It has status 400, the echoed fields and the fixed message. A session is created only for the user `login` returned, and it redirects to the given target. |
| `Login.Focus` | app/routes/login.tsx:80-86 | Focus goes to the first field in the order email, password that has a truthy error, and nowhere when neither has one. |
| `Login.CredentialCheckOnlyAfterValidation` | app/routes/login.tsx:39-60 | On the form-error and field-error paths the answer is the same whatever `login` would say, so credentials are not checked there. |
| `Login.OutcomeDependsOnlyOnSubmittedCredentials` | app/routes/login.tsx:60-71 | For a well-formed form, two credential checks that agree on the submitted pair give the same answer. |
| `Login.FailureIsUniform` | app/routes/login.tsx:60-69 | Every rejected credential pair gets the same status and the same message, so the response does not reveal why login failed. |
| `Login.FocusFollowsAction` | app/routes/login.tsx:80-86 | Focus moves exactly when the action answered with field errors. It goes to the email field exactly when the email was rejected. |
| `Responses.AnyErrorOfFour` | app/routes/register.tsx:68 | `Object.values(fieldErrors).some(Boolean)` over the four-field record holds exactly when one of the four errors is truthy. |
| `Register.Loader` | app/routes/register.tsx:15-19 | The loader redirects to `/` exactly when a user is resolved. |
| `Register.ValidateEmail` | app/routes/register.tsx:21-25 | Same verdict and message as the login copy: an error exactly when the email is shorter than 3 or has no `@`. |
| `Register.ValidatePassword` | app/routes/register.tsx:27-31 | An error exactly when the password is shorter than 6. |
| `Register.ValidateName` | app/routes/register.tsx:33-37 | An error exactly when the name is shorter than 2. The message is `Name must be at least 2 characters`. |
| `Register.ValidatorsAgree` | app/routes/register.tsx:21-31 | The register copies of the email and password validators equal the login copies on every input. |
| `Register.Action` | app/routes/register.tsx:39-58 | The answer is the 400 `Form not submitted correctly.` exactly when one of the four text fields is not a string or `redirectTo` is a file. Otherwise it is the decision on the four texts and the defaulted `redirectTo`. |
| `Register.Decide` | app/routes/register.tsx:60-83 | Field errors come back exactly when some field is invalid. They have status 400 and the four fields echoed. Each of exactly four keys holds what its validator returns, so it is set, with the validator's message, exactly when its field is invalid. A generic failure comes back exactly when the input is valid and `register` returns nothing. It has status 400, the echoed fields and `Something went wrong trying to create a new user.` A session is created only for the user `register` returned, and it redirects to the target. |
| `Register.Focus` | app/routes/register.tsx:94-104 | Focus goes to the first field with an error in the order firstName, lastName, email, password, and nowhere when none has one. |
| `Register.CreationOnlyAfterValidation` | app/routes/register.tsx:47-72 | On the form-error and field-error paths the answer does not depend on `register`, so account creation is not attempted there. |
| `Register.SharedFieldsAgreeWithLogin` | app/routes/register.tsx:60-66 | When both routes answer a form with field errors, they report the same email and password errors. |
| `Register.FocusFollowsAction` | app/routes/register.tsx:94-104 | Focus moves exactly when the action answered with field errors. It lands on a name field exactly when a name was rejected. |
| `Products.Distinct` | app/routes/products._index.tsx:28 | `[...new Set(xs)]` has no duplicates and holds exactly the values of `xs`. |
| `Products.DistinctKeepsFirstOccurrenceOrder` | app/routes/products._index.tsx:28 | The values appear in the order of their first occurrence in `xs`. |
| `Products.CategoryOf` | app/routes/products._index.tsx:28 | `products.map(p => p.category)` has one entry per product: that product's category. |
| `Products.Loader` | app/routes/products._index.tsx:18-31 | The loader passes the products through unchanged. It lists each category once, and a string is listed exactly when some product has that category. |
| `Products.CategoriesInFirstOccurrenceOrder` | app/routes/products._index.tsx:28 | The loader's categories are in the order in which they first occur among the products. |
| `Products.WithCategory` | app/routes/products._index.tsx:41 | The filter result is a subsequence of the products. Each product of the category occurs in it as often as in the input, and no other product occurs. |
| `Products.FilteredProducts` | app/routes/products._index.tsx:40-42 | An empty selection shows the products unchanged. A non-empty one shows exactly the products of that category, in their original order, each as often as in the input. |
| `Products.SelectionShowsProductsIffOffered` | app/routes/products._index.tsx:28-42 | A non-empty selection shows at least one product exactly when the loader listed that category. |
| `Products.CategoryParam` | app/routes/products._index.tsx:37 | The initial-selection rule gives the `category` parameter's value when it is present, and `""` otherwise. |
| `Products.ProductsPage.constructor` | app/routes/products._index.tsx:36-38 | The initial selection is the URL's `category` parameter, or `""` when that is missing. The page starts in sync with the URL. |
| `Products.ProductsPage.Shown` | app/routes/products._index.tsx:40-42 | The page shows the filter of its products by the current selection: every product with no selection, otherwise exactly the products of the selected category in their original order. |
| `Products.ProductsPage.HandleCategoryChange` | app/routes/products._index.tsx:44-51 | A non-empty value becomes the selection, and the URL parameters become exactly `{category: value}`. A cleared picker (`null` or `""`) empties both. Afterwards the selection is the category the URL names, and it is non-empty exactly when the parameter is present. |

## Left out

- The bodies of `login`, `register`, `getUser` and `createUserSession`: session tokens and their signing, cookies, password hashing and the user table. `~/utils/session.server` is not part of this model. These calls are inputs, and a user is reduced to its identifier.
- The Prisma query that feeds the products loader: the `isActive` filter and the newest-first ordering. It runs in the database, so its result is the loader's input.
- `app/root.tsx`, `app/routes/_index.tsx`, and the sessions, workouts and messages routes. They are rendering, database reads and date formatting, and the message form's submit handler sends nothing: it only prevents the default submission and clears the input.
- JSX rendering, Mantine components, and the DOM `focus()` calls, which vary by browser. Only the choice of which field to focus is modelled.
- JSON serialisation of the responses. A validator's `undefined` is kept as `None` under its key, whereas `JSON.stringify` drops the key. Reading a field's error on the client treats both the same way.
- The validators' own `typeof … !== "string"` test. It can never fire, because the actions call the validators only with strings, and the model's validators take strings.
- The `status` of the redirect that `createUserSession` builds. It is decided inside the session module.
- URL search parameters that repeat a name. `SearchParams` holds one value per name, which is all the products page reads or writes.
- React's scheduling of state updates. `HandleCategoryChange` applies both updates at once. The model does not capture the render in between.
- The cross-links to `/login` and `/register` that preserve the query string. They are rendering only.
- Rejected promises. `await request.formData()` rejects when the body is not form data (login.tsx:34, register.tsx:40). The awaited `login`, `register` and `getUser` calls can reject too (login.tsx:16,60; register.tsx:16,72). On these paths the handler throws instead of returning, and Remix answers with its error response. The model's actions and loaders always return one of their result cases, so it does not capture these paths.
- Characters outside the Basic Multilingual Plane. JavaScript counts such a character as two code units, and the model counts it as one. For example, the password made of three emoji has JavaScript `length` 6 and passes `validatePassword` (login.tsx:28), while the model's validators see length 3 and reject it.
