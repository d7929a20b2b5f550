/** The route table of the application shell: which screen each path renders
    for the authentication state read from the browser's session storage. */
module AppRoutes {
  import opened Wrappers
  import Numerals

  /** What a route renders: a screen, or a redirect to another path. */
  datatype Element = LoginScreen | DashboardScreen | MapScreen | AccessDenied | Redirect(to: string)

  /** `authState`: the flag and the role as last read from storage. */
  datatype AuthState = AuthState(isAuthenticated: bool, role: Option<string>)

  /** `localStorage.getItem('isAuthenticated') === 'true'` and `getItem('role')`
      (a missing key reads as null). */
  function ReadAuth(storage: map<string, string>): (a: AuthState)
    ensures a.isAuthenticated <==> "isAuthenticated" in storage && storage["isAuthenticated"] == "true"
    ensures a.role.Some? <==> "role" in storage
    ensures a.role.Some? ==> a.role.value == storage["role"]
  {
    AuthState(
      "isAuthenticated" in storage && storage["isAuthenticated"] == "true",
      if "role" in storage then Some(storage["role"]) else None)
  }

  predicate IsAdmin(a: AuthState) { a.isAuthenticated && a.role == Some("admin") }

  predicate IsUsuario(a: AuthState) { a.isAuthenticated && a.role == Some("usuario") }

  predicate IsSlash(c: char) { c == '/' }

  /** `path` matches the route pattern `pat` the way the router compares
      them: letters without regard to case, and any trailing slashes
      ignored, so the root pattern matches a pathname of slashes only. */
  predicate Matches(path: string, pat: string) {
    var q := Numerals.StripRight(path, IsSlash);
    if pat == "/" then path != [] && q == []
    else |q| == |pat| && forall i :: 0 <= i < |q| ==> Numerals.LowerChar(q[i]) == pat[i]
  }

  /** The element the `<Routes>` table renders for `path`; the catch-all
      route `*` renders access denied. */
  function Render(path: string, a: AuthState): (e: Element)
    ensures Matches(path, "/login") ==> e == LoginScreen
    ensures Matches(path, "/dashboard") ==> (e == DashboardScreen <==> IsAdmin(a))
    ensures Matches(path, "/dashboard") && !IsAdmin(a) ==> e == AccessDenied
    ensures Matches(path, "/map") ==> (e == MapScreen <==> IsUsuario(a))
    ensures Matches(path, "/map") && !IsUsuario(a) ==> e == AccessDenied
    ensures Matches(path, "/") && !a.isAuthenticated ==> e == Redirect("/login")
    ensures Matches(path, "/") && IsAdmin(a) ==> e == Redirect("/dashboard")
    ensures Matches(path, "/") && a.isAuthenticated && !IsAdmin(a) ==> e == Redirect("/map")
    ensures !Matches(path, "/login") && !Matches(path, "/dashboard") ==>
      !Matches(path, "/map") && !Matches(path, "/") ==> e == AccessDenied
  {
    if Matches(path, "/login") then LoginScreen
    else if Matches(path, "/dashboard") then
      if a.isAuthenticated && a.role == Some("admin") then DashboardScreen else AccessDenied
    else if Matches(path, "/map") then
      if a.isAuthenticated && a.role == Some("usuario") then MapScreen else AccessDenied
    else if Matches(path, "/") then
      if a.isAuthenticated then
        if a.role == Some("admin") then Redirect("/dashboard") else Redirect("/map")
      else Redirect("/login")
    else AccessDenied
  }

  /** Each path of the table, written as in the table, matches its own route. */
  lemma RoutesMatchThemselves()
    ensures Matches("/login", "/login") && Matches("/dashboard", "/dashboard")
    ensures Matches("/map", "/map") && Matches("/", "/")
  {
  }

  /** Stripping trailing slashes looks through any appended run of them. */
  lemma {:induction false} StripSlashesAppend(x: string, t: string)
    requires forall i :: 0 <= i < |t| ==> t[i] == '/'
    ensures Numerals.StripRight(x + t, IsSlash) == Numerals.StripRight(x, IsSlash)
  {
    if t == [] {
      assert x + t == x;
    } else {
      assert (x + t)[..|x + t| - 1] == x + t[..|t| - 1];
      StripSlashesAppend(x, t[..|t| - 1]);
    }
  }

  /** Appending slashes to a pathname does not change what it renders. */
  lemma TrailingSlashesIgnored(path: string, t: string, a: AuthState)
    requires path != []
    requires forall i :: 0 <= i < |t| ==> t[i] == '/'
    ensures Render(path + t, a) == Render(path, a)
  {
    StripSlashesAppend(path, t);
  }

  /** Two texts that agree up to the case of their letters strip to texts
      that agree up to case. */
  lemma {:induction false} StripSlashesCase(x: string, y: string)
    requires |x| == |y| && forall i :: 0 <= i < |x| ==> Numerals.LowerChar(x[i]) == Numerals.LowerChar(y[i])
    ensures var qx, qy := Numerals.StripRight(x, IsSlash), Numerals.StripRight(y, IsSlash);
      |qx| == |qy| && forall i :: 0 <= i < |qx| ==> Numerals.LowerChar(qx[i]) == Numerals.LowerChar(qy[i])
  {
    if x != [] {
      var n := |x| - 1;
      assert IsSlash(x[n]) <==> IsSlash(y[n]);
      if IsSlash(x[n]) {
        StripSlashesCase(x[..n], y[..n]);
      }
    }
  }

  /** The case of the letters in a pathname does not change what it renders. */
  lemma CaseIgnored(path: string, other: string, a: AuthState)
    requires |path| == |other|
    requires forall i :: 0 <= i < |path| ==> Numerals.LowerChar(path[i]) == Numerals.LowerChar(other[i])
    ensures Render(other, a) == Render(path, a)
  {
    StripSlashesCase(path, other);
  }

  /** No authentication state is granted both the dashboard and the map. */
  lemma DashboardAndMapExclusive(a: AuthState)
    ensures !(Render("/dashboard", a) == DashboardScreen && Render("/map", a) == MapScreen)
  {
    RoutesMatchThemselves();
  }

  /** Following the redirect of `/` never lands on another redirect, and an
      authenticated user with a role other than `admin` and `usuario` lands on
      the access-denied screen. */
  lemma RootRedirectLands(a: AuthState)
    ensures Render("/", a).Redirect?
    ensures !Render(Render("/", a).to, a).Redirect?
    ensures a.isAuthenticated && a.role != Some("admin") && a.role != Some("usuario")
            ==> Render(Render("/", a).to, a) == AccessDenied
  {
    RoutesMatchThemselves();
  }

  /** A storage value other than exactly `'true'` never authenticates. */
  lemma OnlyExactTrueAuthenticates(storage: map<string, string>, v: string)
    requires v != "true"
    ensures !ReadAuth(storage["isAuthenticated" := v]).isAuthenticated
  {
  }
}
