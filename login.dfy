/** The login screen: the credential form, the submit that stores the session
    and navigates by role, and the forced change of user name and password
    that follows a login with a temporary password. */
module LoginForm {
  import opened Wrappers
  import opened Js
  import AppRoutes

  datatype Credentials = Credentials(username: string, password: string)

  /** The `name` attributes of the login inputs. */
  datatype CredField = Username | Password

  datatype ChangeData = ChangeData(newUsername: string, newPassword: string)

  /** The `name` attributes of the change-form inputs. */
  datatype ChangeField = NewUsername | NewPassword

  /** The body of a 2xx reply to `POST /api/login`. */
  datatype LoginReply = LoginReply(
    success: bool, user: string, role: string, changeRequired: bool, message: Option<string>)

  /** The body of a 2xx reply to `POST /api/change-password`. */
  datatype ChangeReply = ChangeReply(success: bool, message: Option<string>)

  /** The body sent to `POST /api/change-password`. */
  datatype ChangeRequest = ChangeRequest(username: string, newUsername: string, newPassword: string)

  const EmptyCredentials := Credentials("", "")
  const InvalidCredentials := "Credenciales inválidas"
  const ConnectionError := "Error de conexión con el servidor"
  const ChangeFailed := "Error al cambiar usuario/contraseña"

  /** Where a login without a required change goes: admins to the dashboard,
      every other role to the map. */
  function LandingPath(role: string): (p: string)
    ensures p == "/dashboard" <==> role == "admin"
    ensures p != "/dashboard" ==> p == "/map"
  {
    if role == "admin" then "/dashboard" else "/map"
  }

  /** The session keys stored by a successful login. */
  function LoggedIn(storage: map<string, string>, username: string, role: string): (s: map<string, string>)
    ensures s.Keys == storage.Keys + {"isAuthenticated", "username", "role"}
    ensures s["isAuthenticated"] == "true" && s["username"] == username && s["role"] == role
    ensures forall k :: k in storage && k !in {"isAuthenticated", "username", "role"} ==> s[k] == storage[k]
  {
    storage["isAuthenticated" := "true"]["username" := username]["role" := role]
  }

  /** After a login that requires no change, the shell renders the screen the
      role is allowed: the dashboard for `admin`, the map for `usuario`. Any
      other role is sent to the map and denied there. */
  lemma LandingIsAllowed(storage: map<string, string>, username: string, role: string)
    ensures var a := AppRoutes.ReadAuth(LoggedIn(storage, username, role));
            var e := AppRoutes.Render(LandingPath(role), a);
            (role == "admin" ==> e == AppRoutes.DashboardScreen)
            && (role == "usuario" ==> e == AppRoutes.MapScreen)
            && (role != "admin" && role != "usuario" ==> e == AppRoutes.AccessDenied)
  {
    AppRoutes.RoutesMatchThemselves();
  }

  /** The change-form's fixed destination `/dashboard` denies every logged-in
      role but `admin`: a `usuario` finishing the forced change lands on the
      access-denied screen. */
  lemma FixedDashboardDeniesUsuario(storage: map<string, string>, username: string)
    ensures AppRoutes.Render("/dashboard", AppRoutes.ReadAuth(LoggedIn(storage, username, "usuario")))
            == AppRoutes.AccessDenied
  {
    AppRoutes.RoutesMatchThemselves();
  }

  /** The component's state together with the browser state it writes: the
      session storage and the current path. */
  class LoginScreen {
    var credentials: Credentials
    var error: string
    var isLoading: bool
    var showChangeForm: bool
    var changeData: ChangeData
    var loginUser: string
    var loginRole: string
    var storage: map<string, string>
    var location: string

    constructor (storage0: map<string, string>)
      ensures credentials == EmptyCredentials && error == "" && !isLoading && !showChangeForm
      ensures changeData == ChangeData("", "") && loginUser == "" && loginRole == ""
      ensures storage == storage0 && location == "/login"
    {
      credentials := EmptyCredentials;
      error := "";
      isLoading := false;
      showChangeForm := false;
      changeData := ChangeData("", "");
      loginUser := "";
      loginRole := "";
      storage := storage0;
      location := "/login";
    }

    /** `handleChange`: writes one field of the credentials and clears the error. */
    method HandleChange(field: CredField, value: string)
      modifies this
      ensures field == Username ==> credentials == old(credentials).(username := value)
      ensures field == Password ==> credentials == old(credentials).(password := value)
      ensures error == ""
      ensures isLoading == old(isLoading) && showChangeForm == old(showChangeForm)
      ensures changeData == old(changeData) && loginUser == old(loginUser) && loginRole == old(loginRole)
      ensures storage == old(storage) && location == old(location)
    {
      if field == Username {
        credentials := credentials.(username := value);
      } else {
        credentials := credentials.(password := value);
      }
      error := "";
    }

    /** The synchronous start of `handleSubmit`: the request carries the
        current credentials, and the screen is loading with no error. */
    method SubmitStart() returns (req: Credentials)
      modifies this
      ensures req == credentials == old(credentials)
      ensures isLoading && error == ""
      ensures showChangeForm == old(showChangeForm) && changeData == old(changeData)
      ensures loginUser == old(loginUser) && loginRole == old(loginRole)
      ensures storage == old(storage) && location == old(location)
    {
      isLoading := true;
      error := "";
      req := credentials;
    }

    /** The rest of `handleSubmit`, once the request `sent` has ended with `o`. */
    method SubmitResolve(sent: Credentials, o: HttpOutcome<LoginReply>)
      modifies this
      ensures !isLoading
      ensures changeData == old(changeData)
      ensures o.Resolved? && o.body.success ==>
        && loginUser == o.body.user && loginRole == o.body.role
        && storage == LoggedIn(old(storage), sent.username, o.body.role)
        && credentials == EmptyCredentials
        && error == old(error)
        && (o.body.changeRequired ==> showChangeForm && location == old(location))
        && (!o.body.changeRequired ==>
              showChangeForm == old(showChangeForm) && location == LandingPath(o.body.role))
      ensures o.Resolved? && !o.body.success ==> error == MessageOr(o.body.message, InvalidCredentials)
      ensures o.Thrown? ==> error == MessageOr(o.message, ConnectionError)
      ensures !(o.Resolved? && o.body.success) ==>
        && credentials == old(credentials) && showChangeForm == old(showChangeForm)
        && loginUser == old(loginUser) && loginRole == old(loginRole)
        && storage == old(storage) && location == old(location)
    {
      match o {
      case Resolved(reply) =>
        if reply.success {
          loginUser := reply.user;
          loginRole := reply.role;
          storage := storage["isAuthenticated" := "true"];
          storage := storage["username" := sent.username];
          storage := storage["role" := reply.role];
          credentials := EmptyCredentials;
          if reply.changeRequired {
            showChangeForm := true;
          } else if reply.role == "admin" {
            location := "/dashboard";
          } else {
            location := "/map";
          }
        } else {
          error := MessageOr(reply.message, InvalidCredentials);
        }
      case Thrown(message) =>
        error := MessageOr(message, ConnectionError);
      }
      isLoading := false;
    }

    /** `handleChangeForm`: writes one field of the change form and clears the error. */
    method HandleChangeForm(field: ChangeField, value: string)
      modifies this
      ensures field == NewUsername ==> changeData == old(changeData).(newUsername := value)
      ensures field == NewPassword ==> changeData == old(changeData).(newPassword := value)
      ensures error == ""
      ensures credentials == old(credentials) && isLoading == old(isLoading)
      ensures showChangeForm == old(showChangeForm)
      ensures loginUser == old(loginUser) && loginRole == old(loginRole)
      ensures storage == old(storage) && location == old(location)
    {
      if field == NewUsername {
        changeData := changeData.(newUsername := value);
      } else {
        changeData := changeData.(newPassword := value);
      }
      error := "";
    }

    /** The synchronous start of `handleChangeSubmit`: the request names the
        user who logged in and carries the change form. */
    method ChangeSubmitStart() returns (req: ChangeRequest)
      modifies this
      ensures req == ChangeRequest(loginUser, changeData.newUsername, changeData.newPassword)
      ensures isLoading && error == ""
      ensures credentials == old(credentials) && showChangeForm == old(showChangeForm)
      ensures changeData == old(changeData) && loginUser == old(loginUser) && loginRole == old(loginRole)
      ensures storage == old(storage) && location == old(location)
    {
      isLoading := true;
      error := "";
      req := ChangeRequest(loginUser, changeData.newUsername, changeData.newPassword);
    }

    /** The rest of `handleChangeSubmit` as written: on success the new name
        is stored, the form is hidden and the screen always goes to
        `/dashboard`, whatever the role. */
    method ChangeSubmitResolveAsWritten(sent: ChangeRequest, o: HttpOutcome<ChangeReply>)
      modifies this
      ensures !isLoading
      ensures credentials == old(credentials) && changeData == old(changeData)
      ensures loginUser == old(loginUser) && loginRole == old(loginRole)
      ensures o.Resolved? && o.body.success ==>
        && storage == old(storage)["username" := sent.newUsername]
        && !showChangeForm && location == "/dashboard" && error == old(error)
      ensures o.Resolved? && !o.body.success ==> error == MessageOr(o.body.message, ChangeFailed)
      ensures o.Thrown? ==> error == MessageOr(o.message, ConnectionError)
      ensures !(o.Resolved? && o.body.success) ==>
        storage == old(storage) && showChangeForm == old(showChangeForm) && location == old(location)
    {
      match o {
      case Resolved(reply) =>
        if reply.success {
          storage := storage["username" := sent.newUsername];
          showChangeForm := false;
          location := "/dashboard";
        } else {
          error := MessageOr(reply.message, ChangeFailed);
        }
      case Thrown(message) =>
        error := MessageOr(message, ConnectionError);
      }
      isLoading := false;
    }

    /** `handleChangeSubmit` with the navigation the login submit uses: by the
        role the login returned (`loginRole`, which the component records but
        never reads). Everything else is as written. */
    method ChangeSubmitResolve(sent: ChangeRequest, o: HttpOutcome<ChangeReply>)
      modifies this
      ensures !isLoading
      ensures credentials == old(credentials) && changeData == old(changeData)
      ensures loginUser == old(loginUser) && loginRole == old(loginRole)
      ensures o.Resolved? && o.body.success ==>
        && storage == old(storage)["username" := sent.newUsername]
        && !showChangeForm && location == LandingPath(loginRole) && error == old(error)
      ensures o.Resolved? && !o.body.success ==> error == MessageOr(o.body.message, ChangeFailed)
      ensures o.Thrown? ==> error == MessageOr(o.message, ConnectionError)
      ensures !(o.Resolved? && o.body.success) ==>
        storage == old(storage) && showChangeForm == old(showChangeForm) && location == old(location)
    {
      match o {
      case Resolved(reply) =>
        if reply.success {
          storage := storage["username" := sent.newUsername];
          showChangeForm := false;
          location := LandingPath(loginRole);
        } else {
          error := MessageOr(reply.message, ChangeFailed);
        }
      case Thrown(message) =>
        error := MessageOr(message, ConnectionError);
      }
      isLoading := false;
    }
  }

  /** A `usuario` whose account has a temporary password logs in, submits the
      forced change, and the shell then renders what the stored path and
      session select; `fixed` picks the navigation of the change submit. */
  method UsuarioFirstLogin(fixed: bool) returns (e: AppRoutes.Element)
    ensures !fixed ==> e == AppRoutes.AccessDenied
    ensures fixed ==> e == AppRoutes.MapScreen
  {
    var screen := new LoginScreen(map[]);
    screen.HandleChange(Username, "ana");
    screen.HandleChange(Password, "Tmp4Kx9QzL");
    var sent := screen.SubmitStart();
    screen.SubmitResolve(sent, Resolved(LoginReply(true, "ana", "usuario", true, Some("Login exitoso"))));
    screen.HandleChangeForm(NewUsername, "ana.r");
    screen.HandleChangeForm(NewPassword, "secreta");
    var req := screen.ChangeSubmitStart();
    var reply := Resolved(ChangeReply(true, Some("Usuario y contraseña actualizados")));
    if fixed {
      screen.ChangeSubmitResolve(req, reply);
    } else {
      screen.ChangeSubmitResolveAsWritten(req, reply);
    }
    AppRoutes.RoutesMatchThemselves();
    e := AppRoutes.Render(screen.location, AppRoutes.ReadAuth(screen.storage));
  }
}
