# Logistics back office of METALES GALVANIZADOS Y ACEROS S.R.L., modelled in Dafny

The application has three parts:

- a Flask API that manages accounts of the roles `admin` and `usuario`:
  log-in, forced change of the temporary credentials, creation with a
  generated user name, reset of a password by an e-mailed six-digit code,
  enabling, disabling and deleting;
- a React front end: a route table that gates the dashboard and the map by
  role, the log-in screen, the administrator dashboard, and two editors for
  orders ("Pedidos") and quotes ("Cotizaciones");
- a generator of a training set of delivery times over an OpenStreetMap road
  graph, with and without the Thursday street market ("feria").

The model follows each source file's own form:

- `accounts.dfy`: the API handlers are methods of a `UserStore` class whose
  fields are the user table and the verification-code table. The look-ups,
  the log-in decision and the user-name rule are pure functions beside it.
- `routes.dfy`: the route table is a pure function of the path and the
  session storage. A route matches as React Router matches it: letter case
  is ignored and trailing slashes are dropped.
- `login.dfy`, `dashboard.dfy`, `pedidos.dfy`, `cotizaciones.dfy`: each
  screen is a class whose fields are the component's state, plus the session
  storage and the current path where the screen writes them. Each handler is
  a method. Every awaited request, the two saves included, is split into a
  start, which returns the request, and a resolution, which receives the
  request's outcome as a parameter. Between the two the user may go on
  editing, as in the browser.
- `ruta_modelo.dfy`:
  - `ensure_edge_speeds` is a loop over an `array` of segments, updating each
    in place.
  - `shortest_route_stats` is a pair of nested loops, proved equal to a
    recursive sum over the path.
  - `simulate_dataset` is a `while` loop proved equal to a recursive
    reference function. Its bounds are proved as lemmas about that function.
- `numerals.dfy`: the ASCII text functions the sources use (`strip`,
  `lower`, `split`, the numeral pattern, `float`).
- `js.dfy`: JavaScript truthiness, `||` and `Number`.
- `wrappers.dfy`: an `Option` type.

## Model

| member | source | states |
|---|---|---|
| AppRoutes.ReadAuth | frontend/src/App.js:11-14 | authenticated exactly when the stored flag is the string `'true'`; the role is present exactly when stored, and equals the stored value |
| AppRoutes.Render | frontend/src/App.js:43-69 | a path matching `/login` always shows the log-in screen; one matching `/dashboard` shows the dashboard if and only if the session is an authenticated `admin`, otherwise access denied; likewise `/map` for `usuario`; one matching `/` redirects to `/login`, `/dashboard` or `/map`; a path matching none of them is denied. Matching ignores letter case and trailing slashes, and `/` matches any path made only of slashes |
| AppRoutes.RoutesMatchThemselves | frontend/src/App.js:44-62 | each route's own path matches that route |
| AppRoutes.StripSlashesAppend | frontend/src/App.js:43-69 | appending slashes to a path does not change what is left once trailing slashes are dropped |
| AppRoutes.TrailingSlashesIgnored | frontend/src/App.js:43-69 | a non-empty path followed by any number of slashes renders as the path itself (`/dashboard/` as `/dashboard`) |
| AppRoutes.StripSlashesCase | frontend/src/App.js:43-69 | two paths that agree up to letter case keep the same length, and agree up to letter case, once trailing slashes are dropped |
| AppRoutes.CaseIgnored | frontend/src/App.js:43-69 | two paths that agree up to letter case render the same (`/Dashboard` as `/dashboard`) |
| AppRoutes.DashboardAndMapExclusive | frontend/src/App.js:45-60 | no session is granted both the dashboard and the map |
| AppRoutes.RootRedirectLands | frontend/src/App.js:61-68 | `/` always redirects; the target never redirects again; an authenticated role other than `admin` and `usuario` ends on access denied |
| AppRoutes.OnlyExactTrueAuthenticates | frontend/src/App.js:12 | any stored flag other than exactly `'true'` leaves the session unauthenticated |
| Js.Or | frontend/src/components/CotizacionCrud.js:40-47 | `a \|\| b` is `a` when `a` is truthy, else `b`; the result is truthy if and only if one operand is |
| Js.MessageOr | frontend/src/components/Login.js:62 | a non-empty server message is shown, otherwise the fallback text |
| Js.ToNumber | frontend/src/components/PedidosCrud.js:26 | a number converts to itself, `true` to 1 and `false` to 0, `null` to 0, `undefined` to NaN; a string of ECMAScript white space only (the empty string included) converts to 0; a string with no white space at its ends converts by the signed-decimal grammar |
| Js.PaddedNumber | frontend/src/components/PedidosCrud.js:26 | `Number` ignores surrounding ECMAScript white space: padded text is read as the signed grammar reads the text itself |
| Js.NumeralToNumber | frontend/src/components/PedidosCrud.js:26 | a decimal numeral such as `12` or `3.5` converts to the same number `float` gives, and a run of digits to its decimal value |
| Js.DigitOrPointEnds | frontend/src/components/PedidosCrud.js:26 | a numeral starts and ends with a character that is white space for neither JavaScript nor Python |
| Js.TrailingTextIsNaN | frontend/src/components/PedidosCrud.js:26 | digits followed by text that starts with neither a digit nor `.`, such as `12abc`, convert to NaN |
| Js.NumberOrZero | frontend/src/components/PedidosCrud.js:26 | `Number(x) \|\| 0`: 0 for NaN, otherwise the number |
| LoginForm.LandingPath | frontend/src/components/Login.js:53-59 | the landing path is `/dashboard` if and only if the role is `admin`, otherwise `/map` |
| LoginForm.LoggedIn | frontend/src/components/Login.js:40-42 | after a log-in the storage holds exactly the old keys plus the flag `'true'`, the typed user name and the returned role; all other keys are untouched |
| LoginForm.LandingIsAllowed | frontend/src/components/Login.js:40-59 | after a log-in with no required change, the route table shows the dashboard to an `admin` and the map to a `usuario`; any other role is denied |
| LoginForm.FixedDashboardDeniesUsuario | frontend/src/components/Login.js:86-89 | a logged-in `usuario` sent to `/dashboard` is shown access denied |
| LoginForm.LoginScreen.constructor | frontend/src/components/Login.js:7-17 | empty credentials, no error, not loading, change form hidden and empty, path `/login` |
| LoginForm.LoginScreen.HandleChange | frontend/src/components/Login.js:20-26 | writes exactly the named credential field and clears the error |
| LoginForm.LoginScreen.SubmitStart | frontend/src/components/Login.js:30-36 | loading, no error, and the request carries the current credentials |
| LoginForm.LoginScreen.SubmitResolve | frontend/src/components/Login.js:36-68 | on success: records the user and role, stores the session, clears the credentials, then shows the change form or goes to the role's landing path. A failure or a thrown request shows the server message or the fallback and changes nothing else. Loading always ends |
| LoginForm.LoginScreen.HandleChangeForm | frontend/src/components/Login.js:71-74 | writes exactly the named change-form field and clears the error |
| LoginForm.LoginScreen.ChangeSubmitStart | frontend/src/components/Login.js:76-85 | loading, no error, and the request names the logged-in user with the new name and password |
| LoginForm.LoginScreen.ChangeSubmitResolveAsWritten | frontend/src/components/Login.js:86-97 | on success: stores the new user name, hides the form and goes to `/dashboard` whatever the role. Otherwise an error message is shown and the storage and path are kept. Loading always ends |
| LoginForm.LoginScreen.ChangeSubmitResolve | frontend/src/components/Login.js:53-59 | as the previous row, but on success it goes to the landing path of the logged-in role |
| LoginForm.UsuarioFirstLogin | frontend/src/components/Login.js:30-98 | a `usuario` who logs in with a temporary password and completes the change lands on access denied as written, and on the map when corrected |
| DashboardScreen.Toggle | frontend/src/components/Dashboard.js:41-43 | the module ends up open if and only if it was not open; otherwise every module is closed |
| DashboardScreen.ToggleTwiceCloses | frontend/src/components/Dashboard.js:41-43 | opening a closed module and clicking it again closes everything |
| DashboardScreen.ToggleClosesOthers | frontend/src/components/Dashboard.js:41-43 | opening one module never leaves another one open |
| DashboardScreen.StatusClass | frontend/src/components/Dashboard.js:45-46 | `status-on-time` if and only if the status is `A tiempo`, otherwise `status-delayed` |
| DashboardScreen.StatusClasses | frontend/src/components/Dashboard.js:245-252 | one class per delivery row, in order, each given by its status |
| DashboardScreen.Dashboard.Render | frontend/src/components/Dashboard.js:48-68 | the spinner if and only if loading; otherwise the error panel when there is an error; otherwise the panel with the data, which is always present then |
| DashboardScreen.Dashboard.constructor | frontend/src/components/Dashboard.js:8-12 | no data, loading, no error, no open module |
| DashboardScreen.Dashboard.FetchStart | frontend/src/components/Dashboard.js:19-23 | loading, and the request names the stored user name, or null when none is stored |
| DashboardScreen.Dashboard.FetchResolveAsWritten | frontend/src/components/Dashboard.js:24-33 | a successful reply with data sets the data but keeps any earlier error; any other reply sets `Error al cargar los datos`; a thrown request sets the connection error; loading ends |
| DashboardScreen.Dashboard.FetchResolve | frontend/src/components/Dashboard.js:24-33 | as the previous row, but a successful reply also clears the error, so the data panel is shown |
| DashboardScreen.Dashboard.ToggleModule | frontend/src/components/Dashboard.js:41-43 | the open module becomes `Toggle` of the old one; nothing else changes |
| DashboardScreen.Dashboard.HandleLogout | frontend/src/components/Dashboard.js:36-39 | the whole storage is cleared and the path becomes `/login` |
| DashboardScreen.RetryAfterFailure | frontend/src/components/Dashboard.js:19-68 | after a network failure and a successful retry, the screen still shows the error panel as written, and the data when corrected |
| Pedidos.Set | frontend/src/components/PedidosCrud.js:23 | the named key gets the value and the other keys keep theirs |
| Pedidos.AddDetalle | frontend/src/components/PedidosCrud.js:22 | the old lines followed by exactly one fresh line `{'' , 1, 0}` |
| Pedidos.UpdateDetalle | frontend/src/components/PedidosCrud.js:23 | same length; only line `i` changes, and only in the named key; an index out of range changes nothing |
| Pedidos.RemoveDetalle | frontend/src/components/PedidosCrud.js:59 | line `i` is removed and the others keep their order; an index out of range changes nothing |
| Pedidos.Total | frontend/src/components/PedidosCrud.js:26 | no lines total 0, and one line totals its `Number(subtotal) \|\| 0` |
| Pedidos.TotalAppend | frontend/src/components/PedidosCrud.js:26 | the total of two concatenated line lists is the sum of their totals |
| Pedidos.NonNumericCountsZero | frontend/src/components/PedidosCrud.js:26 | a line whose subtotal is not a number adds nothing to the total |
| Pedidos.TotalAfterAdd | frontend/src/components/PedidosCrud.js:22-26 | adding a line leaves the total unchanged |
| Pedidos.TotalSplit | frontend/src/components/PedidosCrud.js:26 | the total is the part before line `i`, plus line `i`'s value, plus the part after |
| Pedidos.TotalAfterRemove | frontend/src/components/PedidosCrud.js:59 | removing a line lowers the total by exactly that line's value |
| Pedidos.TotalAfterUpdate | frontend/src/components/PedidosCrud.js:23-26 | replacing a subtotal changes the total by the new value minus the old one |
| Pedidos.TotalOutsideLine | frontend/src/components/PedidosCrud.js:23-26 | two line lists that agree everywhere but at line `i` have totals that differ only by the values of that line |
| Pedidos.PedidoEditor.constructor | frontend/src/components/PedidosCrud.js:8-9 | no lines and an empty client |
| Pedidos.PedidoEditor.SetClienteId | frontend/src/components/PedidosCrud.js:51 | sets the client and keeps the lines |
| Pedidos.PedidoEditor.Agregar | frontend/src/components/PedidosCrud.js:22 | the lines become `AddDetalle` of the old lines |
| Pedidos.PedidoEditor.Editar | frontend/src/components/PedidosCrud.js:56-58 | the lines become `UpdateDetalle` of the old lines |
| Pedidos.PedidoEditor.Quitar | frontend/src/components/PedidosCrud.js:59 | the lines become `RemoveDetalle` of the old lines |
| Pedidos.PedidoEditor.SaveStart | frontend/src/components/PedidosCrud.js:25-33 | the post carries the client, `pendiente`, `normal`, the lines and their total, and the editor is not changed |
| Pedidos.PedidoEditor.SaveResolve | frontend/src/components/PedidosCrud.js:34-36 | when the post resolved the client and the lines are cleared; when it failed they are kept |
| Pedidos.LineAddedWhileSaving | frontend/src/components/PedidosCrud.js:22-36 | a line added while the post is pending is not in the post and is still discarded when the post resolves |
| Cotizaciones.WithField | frontend/src/components/CotizacionCrud.js:63-68 | the named key gets the value and the other keys keep theirs |
| Cotizaciones.FormFromRecord | frontend/src/components/CotizacionCrud.js:39-48 | each truthy field of the quote is copied; a falsy one becomes `''`, or `emitida` for the state, so the state is always truthy |
| Cotizaciones.RecordOf | frontend/src/components/CotizacionCrud.js:29-31 | the stored quote carries the id and exactly the form's fields |
| Cotizaciones.FormExtensionality | frontend/src/components/CotizacionCrud.js:6 | two forms that agree on every key are the same form |
| Cotizaciones.EmptyFormIsDefaults | frontend/src/components/CotizacionCrud.js:40-47 | each field of the empty form equals the fallback `edit` uses for it |
| Cotizaciones.EditBlankRecord | frontend/src/components/CotizacionCrud.js:37-48 | editing a quote with no truthy field gives the empty form |
| Cotizaciones.EditIsIdempotent | frontend/src/components/CotizacionCrud.js:26-48 | saving a form filled by `edit` and editing the stored quote again gives the same form |
| Cotizaciones.DeleteRequest | frontend/src/components/CotizacionCrud.js:51-53 | a DELETE is issued if and only if the user confirms, and for that id |
| Cotizaciones.CotizacionEditor.constructor | frontend/src/components/CotizacionCrud.js:6-11 | the empty form, with no quote being edited |
| Cotizaciones.CotizacionEditor.SetField | frontend/src/components/CotizacionCrud.js:63-68 | the form becomes `WithField` of the old form; the edited id is kept |
| Cotizaciones.CotizacionEditor.Edit | frontend/src/components/CotizacionCrud.js:37-49 | the edited id is the quote's and the form is `FormFromRecord` of it |
| Cotizaciones.CotizacionEditor.SaveStart | frontend/src/components/CotizacionCrud.js:26-31 | a PUT to the edited id when that id is truthy, a POST otherwise, each with the current form |
| Cotizaciones.CotizacionEditor.SaveResolve | frontend/src/components/CotizacionCrud.js:32-34 | when the request resolved the form is emptied and no quote is being edited; when it failed both are kept |
| Cotizaciones.EditWhileSaving | frontend/src/components/CotizacionCrud.js:26-48 | a quote chosen for editing while a new quote's POST is pending is dropped when the POST resolves: the form is empty again and no quote is being edited |
| Cotizaciones.CotizacionEditor.Cancel | frontend/src/components/CotizacionCrud.js:71 | the empty form, with no quote being edited |
| Accounts.LocalPart | backend/app.py:44 | the text before the first `@`: a prefix that contains no `@` and is followed by `@` unless it is the whole text |
| Accounts.LocalPartOfAddress | backend/app.py:44 | text without `@`, followed by nothing or by `@…`, is its own local part |
| Accounts.Without | backend/app.py:45 | `replace(c, '')`: no `c` remains, every other character is kept, and text without `c` is unchanged |
| Accounts.WithoutChar | backend/app.py:45 | a one-character text loses that character exactly when it is `c` |
| Accounts.WithoutAppend | backend/app.py:45 | removing `c` from two joined texts is removing it from each, in order: with `WithoutChar` this fixes the result character by character |
| Accounts.GenerateUsername | backend/app.py:43-45 | the user name holds exactly the characters of the local part other than space, `_`, `-` and `.`, and is no longer than the address |
| Accounts.CleanAppend | backend/app.py:45 | the four removals applied to two joined texts are the four removals of each, in order |
| Accounts.UsernameAppend | backend/app.py:43-45 | the user name of an address whose local part is `a + b` is the user name of `a` followed by that of `b` |
| Accounts.UsernameChar | backend/app.py:43-45 | a one-character local part is kept unless it is `@`, space, `_`, `-` or `.`: with `UsernameAppend` the user name is the local part with exactly those characters dropped, in order |
| Accounts.UsernameOfCleanAddress | backend/app.py:43-45 | an address whose local part has none of those characters yields exactly its local part |
| Accounts.GenerateUsernameIdempotent | backend/app.py:43-45 | a generated user name maps to itself |
| Accounts.LowerCharKeepsSpace | backend/app.py:152 | lower-casing a character keeps it whitespace or non-whitespace |
| Accounts.NormalizeEmail | backend/app.py:136 | `email.strip().lower()` is no longer than the address and starts and ends with a non-whitespace character |
| Accounts.SqlNormalize | backend/app.py:153 | the database's `lower(trim(email))` is no longer than the address and neither starts nor ends with a space |
| Accounts.NormalizedShape | backend/app.py:152 | a normalised address has no whitespace at either end and no upper-case letter |
| Accounts.LowerOfLower | backend/app.py:152 | lower-casing text with no upper-case letter leaves it unchanged |
| Accounts.CleanEnds | backend/app.py:152-153 | text with no whitespace at its ends is kept by both Python's `strip` and SQL's `trim` |
| Accounts.NormalizeEmailIdempotent | backend/app.py:152 | normalising an address twice gives the same address as normalising it once |
| Accounts.SqlNormalizeOfNormalized | backend/app.py:153 | the database's `lower(trim(email))` of a stored normalised address is that address, so the reset look-up finds a user created with the same address |
| Accounts.FirstIndex | backend/app.py:83 | `.first()`: the least position that satisfies the filter, or none when no position does |
| Accounts.FirstIndexAgrees | backend/app.py:83 | two tables that agree on the filter at every position give the same first match |
| Accounts.UserStore.constructor | backend/app.py:47-49 | `db.create_all()`: empty user and code tables, the given roles, and the next id 1 |
| Accounts.ByName | backend/app.py:103 | the first user with that name, or none when there is no such user |
| Accounts.ById | backend/app.py:195 | the first user with that id, or none when there is no such user |
| Accounts.ByEmail | backend/app.py:178 | the first user whose trimmed, lower-cased address equals the address given, or none |
| Accounts.ByEmailAgrees | backend/app.py:178 | the look-up only reads addresses, so an update that keeps addresses keeps its result |
| Accounts.UsableCode | backend/app.py:181 | the first unused code row of that user with that code, or none |
| Accounts.CountZeroIffNoneUsable | backend/app.py:181-183 | the code is rejected as invalid if and only if no unused matching row remains |
| Accounts.CountAfterUse | backend/app.py:189 | marking an accepted row used lowers the number of accepting rows by exactly one |
| Accounts.CountAfterAppend | backend/app.py:159-160 | inserting a row adds one accepting row exactly when the new row accepts |
| Accounts.CountUsable | backend/app.py:181 | the number of unused rows of that user with that code, at most the number of rows |
| Accounts.Login | backend/app.py:78-95 | accepted if and only if the first user of that name exists, is active and has that password; on success it reports the typed name, the role and the temporary flag; a missing or disabled user gives 401 `no existe o está deshabilitado`; an active user with another password gives 401 `Credenciales inválidas`, and so does any other failure |
| Accounts.LoginOnlyWithMatch | backend/app.py:83-94 | a successful log-in implies an active user with that name exists |
| Accounts.NewUser | backend/app.py:136-140 | the created row has the given id, role and temporary password, the generated user name and the normalised address, and is enabled and flagged temporary |
| Accounts.Changed | backend/app.py:106-108 | the new name and password are set and the temporary flag cleared; id, address, role and enabled flag are kept |
| Accounts.DisabledIgnoresPassword | backend/app.py:84-85 | a missing or disabled user is turned away the same way whatever password is given |
| Accounts.LoginAfterCreate | backend/app.py:133-141 | a freshly created user logs in with the generated name and the temporary password, and is told to change it |
| Accounts.LoginAfterChange | backend/app.py:106-108 | after the change an active user logs in with the new name and password, and no change is required, provided no earlier row in insertion order has the new name |
| Accounts.ByNameSameRow | backend/app.py:83 | when no two users share a name, the look-up by name finds a row in one ordering of the table exactly when it finds one in another, and it finds the same row |
| Accounts.LoginIgnoresOrder | backend/app.py:83-95 | when no two users share a name, the log-in reply is the same for every ordering of the user table |
| Accounts.ResetStepOf | backend/app.py:175-185 | no user if and only if no address matches; an invalid code if and only if that user has no unused matching row; expired only when the first such row is past its expiry; otherwise the user row and the first unexpired accepting code row |
| Accounts.UserStore.ChangePassword | backend/app.py:97-110 | an unknown name gives 404 and nothing changes; otherwise the first user of that name gets the new name and password, loses the temporary flag, and the reply reports success |
| Accounts.UserStore.CreateUser | backend/app.py:125-147 | an unknown role gives 400 and nothing changes. Otherwise exactly one user is appended, with the next id, the generated name, the normalised address, the role, enabled and flagged temporary. The reply is a success whether or not the mail was sent, and carries the mail error when there was one. Identifiers stay distinct |
| Accounts.UserStore.RequestPasswordReset | backend/app.py:149-169 | an unknown address gives 404 and no code is stored. Otherwise exactly one unused code row for that user is appended, expiring ten minutes from now. The row is kept even when the mail fails, which gives a 500 |
| Accounts.UserStore.ResetPassword | backend/app.py:172-191 | the 404, invalid-code and expired replies in the handler's order, each changing nothing. On success only that user's password and that code row's used flag change, and the code accepts one reset fewer |
| Accounts.UserStore.ToggleUser | backend/app.py:193-200 | an unknown id gives 404; otherwise only that user's enabled flag is inverted and the reply reports the new value |
| Accounts.UserStore.DeleteUser | backend/app.py:202-209 | an unknown id gives 404; otherwise exactly that user is removed, the others keep their order, and no user has the id afterwards |
| Accounts.UserStore.ToggleTwice | backend/app.py:193-200 | toggling the same id twice restores the table, and the second reply reports the opposite of the first |
| Accounts.UserStore.ResetTwice | backend/app.py:181-190 | a code stored at most once per user resets a password at most once |
| Accounts.UserStore.IssueThenReset | backend/app.py:149-191 | a newly issued code resets the password up to ten minutes after issue, and is reported expired after that |
| Numerals.Lower | backend/app.py:152 | `lower()` keeps the length |
| Numerals.LowerAt | backend/app.py:152 | `lower()` works character by character |
| Numerals.StripLeft | backend/app.py:152 | exactly the leading run of class characters is removed: the removed characters are all in the class, their number is the prefix length, and the rest starts with a character outside it |
| Numerals.StripLeftIsSuffix | backend/app.py:152 | the result is the suffix after the leading run |
| Numerals.StripRight | backend/app.py:152 | only trailing class characters are removed: every removed character is in the class, the first character is kept, and the rest ends with a character outside it |
| Numerals.StripRightIsPrefix | backend/app.py:152 | the result is a prefix of the text |
| Numerals.Strip | backend/app.py:152 | `strip()`: no longer than the text, and neither starts nor ends with a character of the class |
| Numerals.StripIsBothStrips | backend/app.py:152 | stripping both ends is stripping the left end and then the right |
| Numerals.StripBlank | backend/app.py:152 | the result is empty if and only if every character of the text is in the class |
| Numerals.StripSlice | backend/app.py:152 | the result is the slice of the text that starts right after the leading run |
| Numerals.StripTail | backend/app.py:152 | every character after that slice is in the class, so together with `StripSlice` only the two runs at the ends are removed |
| Numerals.PrefixLen | backend/ml/ruta_modelo.py:93 | the length of the longest prefix in the class |
| Numerals.FirstToken | backend/ml/ruta_modelo.py:93 | `split()[0]`: absent exactly when the text is all whitespace; otherwise the non-empty, whitespace-free slice that starts after the leading whitespace and is followed by whitespace or the end |
| Numerals.RunOfSuffix | backend/ml/ruta_modelo.py:93 | the class run at position `i` is a slice of the text that ends at a character outside the class or at the end |
| Numerals.FirstNumber | backend/ml/ruta_modelo.py:100-101 | `re.findall(r"\d+\.?\d*", s)` is empty exactly when `s` has no digit; otherwise the first match is a numeral of the pattern, the greedy match at the first digit |
| Numerals.NumeralAt | backend/ml/ruta_modelo.py:100 | the match at a digit is a numeral and a prefix of the text, and is greedy: one more character would not be a numeral |
| Numerals.PointNumeral | backend/ml/ruta_modelo.py:100 | digits, a point and the digits after it form a numeral, and the next character cannot extend it |
| Numerals.PointThenNonDigit | backend/ml/ruta_modelo.py:100 | a numeral with a point cannot be extended by a further non-digit |
| Numerals.DigitsNumeral | backend/ml/ruta_modelo.py:100 | a run of digits not followed by a point is a numeral that cannot be extended |
| Numerals.PrefixLenOfPrefix | backend/ml/ruta_modelo.py:100 | cutting the text after its first character outside the class keeps the prefix length |
| Numerals.StripUnchanged | backend/ml/ruta_modelo.py:102 | text with no class character at its ends is unchanged by strip |
| Numerals.UnsignedValue | backend/ml/ruta_modelo.py:102 | no value for empty text or one that starts with neither a digit nor `.`; a run of digits gives its decimal value; any value is not negative |
| Numerals.SignedValue | backend/ml/ruta_modelo.py:102 | no value for empty text; a leading `-` negates the unsigned value of the rest, a leading `+` gives the unsigned value of the rest, and text with no sign is read as unsigned |
| Numerals.ParseFloat | backend/ml/ruta_modelo.py:93 | `float` of text that is all whitespace raises; text with no whitespace at its ends is read by the signed grammar |
| Numerals.StripBetween | backend/ml/ruta_modelo.py:93 | when the class prefix has length `n` and only class characters follow position `n + m`, the last of them outside the class, strip leaves exactly `s[n..n+m]` |
| Numerals.StripPadded | backend/ml/ruta_modelo.py:93 | text surrounded by any run of class characters, with no class character at its own ends, is what strip leaves |
| Numerals.ParseFloatPadded | backend/ml/ruta_modelo.py:93 | `float` ignores surrounding whitespace: padded text is read as the signed grammar reads the text itself |
| Numerals.NumeralParses | backend/ml/ruta_modelo.py:100-102 | every match of the pattern is accepted by `float`, and a run of digits converts to its decimal value |
| RutaModelo.EdgeLength | backend/ml/ruta_modelo.py:80-86 | an existing length is kept; otherwise the geometry length times 111139; otherwise 30 m |
| RutaModelo.ListHeadSpeed | backend/ml/ruta_modelo.py:93 | `float(str(x).split()[0])`: numbers convert to themselves; strings by their first token; anything else raises |
| RutaModelo.SpeedFromMaxspeed | backend/ml/ruta_modelo.py:89-106 | a non-empty list gives its first element's speed, or the fallback when that raises. A bool gives 1 or 0, an int or float itself. A string with no digit gives the fallback, otherwise its first numeral. An empty list, None or any other value gives the fallback |
| Numerals.PrefixLenConcat | backend/ml/ruta_modelo.py:100 | a run of class characters followed by a character outside the class is the whole prefix |
| RutaModelo.NumberWithUnit | backend/ml/ruta_modelo.py:98-102 | a tag such as `50 mph`, a whole number followed by a non-numeral, gives that number |
| RutaModelo.EdgeSpeed | backend/ml/ruta_modelo.py:88-106 | an existing `speed_kph` is kept; otherwise the speed from `maxspeed` |
| RutaModelo.Divisor | backend/ml/ruta_modelo.py:109-110 | `max(kph·1000/3600, 0.001)`: at least both, and equal to one of them |
| RutaModelo.TravelTime | backend/ml/ruta_modelo.py:109-110 | travel time times the divisor is the length |
| RutaModelo.NormalizeEdge | backend/ml/ruta_modelo.py:80-110 | the length, speed and travel time are always present and as above; geometry and `maxspeed` are untouched |
| RutaModelo.NormalizeEdgeIdempotent | backend/ml/ruta_modelo.py:74-110 | running the normalisation a second time, with any fallback, changes nothing |
| RutaModelo.EnsureEdgeSpeeds | backend/ml/ruta_modelo.py:74-110 | every segment of the graph is replaced in place by its normalisation, with its endpoints and key kept |
| RutaModelo.Parallel | backend/ml/ruta_modelo.py:124 | there are no more parallel segments `u → v` than segments in the graph |
| RutaModelo.ParallelOne | backend/ml/ruta_modelo.py:124 | a one-segment graph gives that segment's data exactly when it joins `u` to `v` |
| RutaModelo.ParallelAppend | backend/ml/ruta_modelo.py:124 | the parallel segments of two joined graphs are those of each, in order: with `ParallelOne` they are exactly the `u → v` segments, in the graph's order |
| RutaModelo.ParallelNonNeg | backend/ml/ruta_modelo.py:124-132 | a graph with no negative length or travel time has none among its parallel segments |
| RutaModelo.BestPrefix | backend/ml/ruta_modelo.py:122-129 | the chosen key is among the segments looked at |
| RutaModelo.BestIsFirstMinimum | backend/ml/ruta_modelo.py:122-129 | no segment is chosen if and only if every weight is missing (infinite). Otherwise the chosen segment has a weight and none weighs less, and every earlier segment weighs strictly more, so the first least one wins |
| RutaModelo.Hop | backend/ml/ruta_modelo.py:120-132 | a hop with no parallel segment adds nothing |
| RutaModelo.HopOfLeast | backend/ml/ruta_modelo.py:122-132 | when segment `k` is the first of least weight, the hop adds its length and travel time |
| RutaModelo.HopUnweighted | backend/ml/ruta_modelo.py:122-132 | when no parallel segment has the weight, the hop adds nothing |
| RutaModelo.HopNonNeg | backend/ml/ruta_modelo.py:120-132 | in a graph with no negative weight a hop adds no negative distance or time |
| RutaModelo.SumHops | backend/ml/ruta_modelo.py:118-132 | a path of fewer than two nodes sums to zero |
| RutaModelo.SumHopsFront | backend/ml/ruta_modelo.py:118-132 | a path of two or more nodes sums its first hop and the rest |
| RutaModelo.SumHopsNonNeg | backend/ml/ruta_modelo.py:118-132 | hops that are never negative sum to no negative totals |
| RutaModelo.RouteTotals | backend/ml/ruta_modelo.py:118-132 | a route of fewer than two nodes has zero distance and time |
| RutaModelo.RouteTotalsExtend | backend/ml/ruta_modelo.py:120-132 | extending a route by its next node adds that hop |
| RutaModelo.RouteTotalsNonNeg | backend/ml/ruta_modelo.py:118-133 | a route in a graph with no negative weight has no negative distance or time |
| RutaModelo.SumHopsSplit | backend/ml/ruta_modelo.py:118-132 | hop sums split at any node of the path |
| RutaModelo.RouteSplit | backend/ml/ruta_modelo.py:118-132 | a route's distance and time are those of its two halves split at any node; a one-node route has zero totals |
| RutaModelo.PickBest | backend/ml/ruta_modelo.py:122-129 | the inner loop chooses the first segment of least weight, as `BestPrefix` describes |
| RutaModelo.AddHop | backend/ml/ruta_modelo.py:121-132 | one pass of the hop loop adds that hop's totals to the running ones |
| RutaModelo.ShortestRouteStats | backend/ml/ruta_modelo.py:112-135 | no path gives no route; a path gives that path with the summed length and travel time of the chosen segment of each hop |
| RutaModelo.WithinRadius | backend/ml/ruta_modelo.py:148-149 | `nodes_gdf[dist_center <= radius_m]`: a node is kept if and only if it is within the radius, and there are no more rows than there were |
| RutaModelo.WithinRadiusOne | backend/ml/ruta_modelo.py:149 | a one-row table keeps its row exactly when it is within the radius |
| RutaModelo.WithinRadiusAppend | backend/ml/ruta_modelo.py:149 | filtering two joined tables is filtering each, in order: with `WithinRadiusOne` the rows kept are exactly those within the radius, in the table's order |
| RutaModelo.Candidates | backend/ml/ruta_modelo.py:149-151 | the candidates are drawn from the nodes and are either all of them or at least ten |
| RutaModelo.CandidatesChoice | backend/ml/ruta_modelo.py:149-151 | with fewer than ten nodes within the radius every node is a candidate; otherwise only those within it |
| RutaModelo.PickRandomNodes | backend/ml/ruta_modelo.py:152-153 | `min(max_nodes, len(sub))` node identifiers, the ones at the sampled rows |
| RutaModelo.PicksDistinct | backend/ml/ruta_modelo.py:149-153 | distinct node identifiers yield distinct picks |
| RutaModelo.WithinRadiusDistinct | backend/ml/ruta_modelo.py:149 | filtering by distance keeps identifiers distinct |
| RutaModelo.FeriaFactor | backend/ml/ruta_modelo.py:184 | a slowdown in [1.2, 1.6) on a market day and in [1.0, 1.1) otherwise |
| RutaModelo.RowTimeBounds | backend/ml/ruta_modelo.py:183-196 | the base time is the route's time; the observed time is at least 80 % of the slowed-down base time, and exactly that when the noise is at most 0.8 |
| RutaModelo.Attempt | backend/ml/ruta_modelo.py:167-196 | an attempt yields no row if and only if the pair has no route in the normal graph or none in the graph in use; a row has the drawn pair and its market flag equal to its Thursday flag |
| RutaModelo.Simulate | backend/ml/ruta_modelo.py:166-196 | a run never loses rows or attempts |
| RutaModelo.SimulateExtends | backend/ml/ruta_modelo.py:166-196 | a run keeps its earlier rows as a prefix, adds at most one row per attempt, and stays within the attempt budget |
| RutaModelo.SimulateBounds | backend/ml/ruta_modelo.py:164-181 | a run ends with at most `n_pairs` rows, at most `10·n_pairs` attempts, no more rows than attempts, and with either all rows or all attempts used |
| RutaModelo.SimulateAllRoutes | backend/ml/ruta_modelo.py:166-196 | when every pair has a route in both graphs the run yields exactly `n_pairs` rows |
| RutaModelo.SimulateRowsOk | backend/ml/ruta_modelo.py:188-196 | every row pairs two candidates, two different ones when the candidates are distinct, and its market flag equals its Thursday flag |
| RutaModelo.SimulateDataset | backend/ml/ruta_modelo.py:156-198 | fewer than two candidates raise; otherwise the loop yields exactly the rows and attempt count of the reference run, and with them the bounds above |

## Left out

- `frontend/src/components/MapView.js` and `Reportes.js` are only context, and are not modelled.
- `backend/models.py` declares tables whose columns differ from those the API uses (`username` against `nombre`, no `CodigosVerificacion` table). The model follows the columns `app.py` reads and writes.
- `create_tables` seeding (app.py:47-76) and the read-only payloads of `get_users`, `/api/dashboard` and the route endpoints (app.py:112-123, 213-256) are not modelled: they compute no rule worth stating.
- Password hashing: bcrypt is modelled as an ideal hash, a stored secret compared for equality.
- Mail delivery is a parameter (`None` or the exception text), and the database session, commits and unique constraints are left out. A failed commit, and the 500 a duplicate name would raise, are therefore not modelled.
- Randomness is a parameter throughout:
  - the temporary password and the reset code, constrained by the predicates `IsTempPassword` and `IsResetCode`;
  - the sampler's draw in `pick_random_nodes`;
  - each attempt's pair, market flag, slowdown draw and noise in `simulate_dataset`.
- The clock is a parameter `now` in seconds.
- Loading the OSMnx graph and marking the market streets (ruta_modelo.py:23-71) is left out. So are the projection of nodes to compute their distance to the centre, and the geometry length: both are inputs.
- `nx.shortest_path` is a parameter: its result path, or `None` for no path.
- RutaModelo.ShortestRouteStats: does not require consecutive path nodes to be adjacent. A hop with no segment adds nothing, where Python would raise `KeyError`; the search only returns paths along segments.
- Floating point: IEEE doubles are modelled as exact reals, with no rounding, NaN or infinity. A missing weight stands for infinity. Because distances are always finite here, the `np.isfinite` check only ever rejects a missing path.
- The pandas `DataFrame` construction is left out; the model returns the row list.
- `Numerals.ParseFloat` and `Js.ToNumber` accept only `[+-]digits[.digits]` and `.digits`. Exponents, `inf`, `nan`, `Infinity`, underscores and the `0x`, `0b` and `0o` forms are not modelled. `Js.ToNumber` trims the ECMAScript white-space and line-terminator characters; `ParseFloat` trims only the ASCII characters Python's `str.isspace` accepts.
- Python's `strip`, `split` and `lower`, and SQL's `lower(trim())`, are modelled on ASCII. So are the digits: `\d` in `re.findall` and the digits `float` accepts are `0`-`9` only, whereas Python accepts every Unicode decimal digit (`float('٥٠')` is `50.0`).
- AppRoutes.Render: does not model percent-decoding of the path or a router basename, and takes every pathname to start with `/`, as the browser supplies it.
- JSX rendering is not modelled beyond the choice of view. The 500 ms polling and the `storage` listener that re-read the session (App.js:16-36) are not modelled either: the route table reads the storage directly.
- The list loading (`fetch`) of the order and quote screens is not modelled; neither screen keeps any rule in it.
- The confirmation before deleting an order (PedidosCrud.js:39-43) is the same guard as `Cotizaciones.DeleteRequest`, and is not modelled twice.
- Cotizaciones.CotizacionEditor.SetField: accepts any key, although the screen has inputs for only six of the eight (none for `cliente_id` or `estado`).
- RutaModelo.RowTimeBounds: bounds the observed time from below only. Normal noise has no upper bound.
- A quote whose id is `0` is falsy, so `save` POSTs a new quote instead of updating it; `Cotizaciones.CotizacionEditor.SaveStart` models this behaviour as written.
- A reset uses the first unused matching code row even when it has expired. A later, unexpired duplicate of the same code is then not reached when the database returns the expired row first; `Accounts.ResetStepOf` models this as written.
- Accounts.FirstIndex, Accounts.ByName, Accounts.ByEmail and Accounts.UsableCode: SQL gives a `.first()` without `order_by` no defined row order, so the database may return any matching row first. This matters because the model drops the unique constraints: it allows duplicate names, addresses that are equal up to case and padding, and repeated codes. The model fixes insertion order, so which duplicate is picked is an assumption, and so is the requires of `Accounts.LoginAfterChange`, which only excludes earlier users with the new name. With unique names the order does not matter, as `Accounts.LoginIgnoresOrder` proves.

## Findings

| source | as written | input that shows it | evidently intended | confidence | as-written member | corrected member |
|---|---|---|---|---|---|---|
| frontend/src/components/Dashboard.js:24-27 | a successful reload sets the data but never clears `error`, so the error panel stays | the first load throws, then "Reintentar" succeeds with data `d`: the screen still shows `Error de conexión con el servidor` | a successful load clears the error and shows the data | not executed | DashboardScreen.RetryAfterFailure | DashboardScreen.Dashboard.FetchResolve |
| frontend/src/components/Login.js:86-89 | after the forced credential change the screen always navigates to `/dashboard` | a `usuario` with a temporary password logs in and completes the change: the route table shows access denied | navigate by the role recorded at log-in (`loginRole`, which is set but never read), as the log-in submit does | not executed | LoginForm.UsuarioFirstLogin | LoginForm.LoginScreen.ChangeSubmitResolve |
