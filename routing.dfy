/** The route guard and the route table of the application root. */
module Routing {
  import opened Basics
  import Auth

  /** What the guard renders. */
  datatype GuardOutcome = Placeholder | Redirect(to: string, replace: bool) | Layout

  /** `PrivateRoute`: the "Loading..." placeholder while auth resolves, a
      history-replacing redirect to `/login` for an anonymous session, and the
      dashboard layout around the nested view otherwise. */
  function PrivateRoute(loading: bool, isAuthenticated: bool): (o: GuardOutcome)
    ensures o.Placeholder? <==> loading
    ensures o.Redirect? <==> !loading && !isAuthenticated
    ensures o.Layout? <==> !loading && isAuthenticated
    ensures o.Redirect? ==> o == Redirect("/login", true)
  {
    if loading then Placeholder
    else if !isAuthenticated then Redirect("/login", true)
    else Layout
  }

  datatype View = LoginView | RegisterView | DashboardView | UsersView | SettingsView | ProfileView

  /** A route: a public view, a view nested under the guard, or a redirect element. */
  datatype Route = Open(view: View) | Guarded(view: View) | Forward(to: string)

  /** Drops the trailing slashes of a path, keeping the root `/`. */
  function TrimSlashes(path: string): (r: string)
    ensures r <= path
    ensures |r| <= 1 || r[|r| - 1] != '/'
    ensures forall i :: |r| <= i < |path| ==> path[i] == '/'
    ensures |path| > 0 ==> |r| > 0
    decreases |path|
  {
    if |path| > 1 && path[|path| - 1] == '/' then TrimSlashes(path[..|path| - 1]) else path
  }

  /** The form of a path that route matching compares: React Router ignores
      letter case and trailing slashes unless a route asks otherwise, and no
      route here does. */
  function RouteKey(path: string): (k: string)
    ensures |k| <= |path| && (|path| > 0 ==> |k| > 0)
    ensures forall i :: 0 <= i < |k| ==> !IsUpper(k[i])
    ensures |k| <= 1 || k[|k| - 1] != '/'
  {
    Lower(TrimSlashes(path))
  }

  /** Matching the key again changes nothing, so a path and its key reach the same route. */
  lemma RouteKeyStable(path: string)
    ensures RouteKey(RouteKey(path)) == RouteKey(path)
  {
    var t := TrimSlashes(path);
    var k := Lower(t);
    if |k| > 1 {
      assert k[|k| - 1] == LowerChar(t[|t| - 1]);
    }
    assert TrimSlashes(k) == k;
    LowerIdempotent(t);
  }

  /** The table's own paths are their own keys. */
  lemma TablePathKeys()
    ensures RouteKey("/login") == "/login" && RouteKey("/register") == "/register"
    ensures RouteKey("/dashboard") == "/dashboard" && RouteKey("/users") == "/users"
    ensures RouteKey("/settings") == "/settings" && RouteKey("/profile") == "/profile"
    ensures RouteKey("/") == "/"
  {
    LowerPlain("/login");
    LowerPlain("/register");
    LowerPlain("/dashboard");
    LowerPlain("/users");
    LowerPlain("/settings");
    LowerPlain("/profile");
    LowerPlain("/");
  }

  lemma LowerPlain(s: string)
    requires forall i :: 0 <= i < |s| ==> !IsUpper(s[i])
    ensures Lower(s) == s
  {
  }

  /** The `<Routes>` table; a path whose key it does not list matches nothing. */
  function RouteFor(path: string): (r: Option<Route>)
    ensures r.Some? <==> RouteKey(path) in ["/login", "/register", "/dashboard", "/users", "/settings", "/profile", "/"]
    ensures r == Some(Forward("/dashboard")) <==> RouteKey(path) == "/"
    ensures r.Some? && r.value.Forward? ==> r.value.to == "/dashboard"
  {
    var k := RouteKey(path);
    if k == "/login" then Some(Open(LoginView))
    else if k == "/register" then Some(Open(RegisterView))
    else if k == "/dashboard" then Some(Guarded(DashboardView))
    else if k == "/users" then Some(Guarded(UsersView))
    else if k == "/settings" then Some(Guarded(SettingsView))
    else if k == "/profile" then Some(Guarded(ProfileView))
    else if k == "/" then Some(Forward("/dashboard"))
    else None
  }

  /** Paths that differ only in letter case or trailing slashes reach the same route. */
  lemma SameKeySameRoute(path: string)
    ensures RouteFor(RouteKey(path)) == RouteFor(path)
  {
    RouteKeyStable(path);
  }

  /** A capitalised path with a trailing slash reaches the dashboard route. */
  lemma CaseAndSlashIgnored()
    ensures RouteFor("/Dashboard/") == Some(Guarded(DashboardView))
    ensures RouteFor("/USERS//") == Some(Guarded(UsersView))
  {
    assert TrimSlashes("/Dashboard/") == "/Dashboard";
    assert Lower("/Dashboard") == "/dashboard";
    assert TrimSlashes("/USERS//") == "/USERS";
    assert Lower("/USERS") == "/users";
  }

  predicate IsProtected(path: string) {
    RouteFor(path).Some? && RouteFor(path).value.Guarded?
  }

  predicate IsPublic(path: string) {
    RouteFor(path).Some? && RouteFor(path).value.Open?
  }

  /** The guarded paths are exactly those whose key is one of the four
      application views, and the public ones those whose key is a form. */
  lemma RouteClasses(path: string)
    ensures IsProtected(path) <==> RouteKey(path) in ["/dashboard", "/users", "/settings", "/profile"]
    ensures IsPublic(path) <==> RouteKey(path) in ["/login", "/register"]
  {
  }

  /** What the screen shows once navigation has settled. */
  datatype Screen = Shows(view: View, inLayout: bool) | Loading | Blank

  /** One navigation step: show something, or move (replacing history) to another path. */
  datatype Hop = Show(screen: Screen) | Go(target: string)

  /** How many redirects a path can still take: `/` forwards to a guarded path,
      which may forward to `/login`, which is public. */
  function Rank(path: string): nat {
    match RouteFor(path)
    case Some(Forward(_)) => 2
    case Some(Guarded(_)) => 1
    case _ => 0
  }

  function Visit(path: string, loading: bool, isAuthenticated: bool): (h: Hop)
    ensures h.Go? ==> Rank(h.target) < Rank(path)
  {
    TablePathKeys();
    match RouteFor(path)
    case None => Show(Blank)
    case Some(Open(v)) => Show(Shows(v, false))
    case Some(Forward(to)) => Go(to)
    case Some(Guarded(v)) =>
      match PrivateRoute(loading, isAuthenticated)
      case Placeholder => Show(Loading)
      case Redirect(to, _) => Go(to)
      case Layout => Show(Shows(v, true))
  }

  /** The final location and screen of a navigation, after every redirect. */
  function Settle(path: string, loading: bool, isAuthenticated: bool): (r: (string, Screen))
    ensures loading && (IsProtected(path) || RouteKey(path) == "/") ==> r.1 == Loading
    ensures !loading && !isAuthenticated && (IsProtected(path) || RouteKey(path) == "/") ==>
              r == ("/login", Shows(LoginView, false))
    ensures !loading && isAuthenticated && IsProtected(path) ==>
              r == (path, Shows(RouteFor(path).value.view, true))
    ensures !loading && isAuthenticated && RouteKey(path) == "/" ==> r == ("/dashboard", Shows(DashboardView, true))
    ensures IsPublic(path) ==> r == (path, Shows(RouteFor(path).value.view, false))
    ensures RouteFor(path).None? ==> r == (path, Blank)
    decreases Rank(path)
  {
    TablePathKeys();
    match Visit(path, loading, isAuthenticated)
    case Show(screen) => (path, screen)
    case Go(target) => Settle(target, loading, isAuthenticated)
  }

  /** While auth is still resolving, navigating to any guarded path never moves to `/login`. */
  lemma NoRedirectWhileLoading(path: string, isAuthenticated: bool)
    requires IsProtected(path)
    ensures Visit(path, true, isAuthenticated) == Show(Loading)
    ensures Settle(path, true, isAuthenticated) == (path, Loading)
  {
  }

  /** Where a navigation to `path` lands for a given session of the provider.
      The provider renders its children only once `loading` is false, so
      while it is true the screen is blank on every path. */
  function Navigate(s: Auth.Session, path: string): (r: (string, Screen))
    ensures s.loading ==> r == (path, Blank)
    ensures !s.loading ==> r == Settle(path, false, s.isAuthenticated)
  {
    if s.loading then (path, Blank) else Settle(path, false, s.isAuthenticated)
  }

  /** Once loading has finished, no navigation settles on the placeholder. */
  lemma {:induction false} SettledNeverLoading(path: string, isAuthenticated: bool)
    ensures Settle(path, false, isAuthenticated).1 != Loading
    decreases Rank(path)
  {
    match Visit(path, false, isAuthenticated)
    case Show(_) =>
    case Go(target) => SettledNeverLoading(target, isAuthenticated);
  }

  /** The guard's "Loading..." placeholder is never on screen: while the
      provider loads it renders nothing, and afterwards the guard never
      chooses the placeholder. */
  lemma PlaceholderNeverShown(s: Auth.Session, path: string)
    ensures Navigate(s, path).1 != Loading
  {
    if !s.loading {
      SettledNeverLoading(path, s.isAuthenticated);
    }
  }

  /** A fresh start without a stored token resolves without a request and
      sends `/dashboard` to the login form. */
  lemma FreshStartGoesToLogin(me: Basics.Reply<Auth.Identity>)
    ensures Navigate(Auth.AfterMount(Auth.Initial(None), me), "/dashboard") == ("/login", Shows(LoginView, false))
  {
  }

  /** A login whose identity fetch fails reports success, yet the next visit
      to a guarded page lands on the login form. */
  lemma FailedIdentityAfterLoginGoesToLogin(s: Auth.Session, accessToken: string, status: int, path: string)
    requires IsProtected(path)
    ensures Auth.AfterLogin(s, Basics.Ok(accessToken), Basics.Fail(status)).0 == Basics.Ok(true)
    ensures Navigate(Auth.AfterLogin(s, Basics.Ok(accessToken), Basics.Fail(status)).1, path) == ("/login", Shows(LoginView, false))
  {
  }

  /** After a successful login, every guarded page renders inside the layout. */
  lemma LoginOpensGuardedViews(s: Auth.Session, accessToken: string, who: Auth.Identity, path: string)
    requires IsProtected(path)
    ensures Navigate(Auth.AfterLogin(s, Basics.Ok(accessToken), Basics.Ok(who)).1, path) ==
            (path, Shows(RouteFor(path).value.view, true))
  {
  }

  /** After logout, with auth already resolved, `/dashboard` sends the user to the login form. */
  lemma LogoutGoesToLogin(s: Auth.Session)
    requires !s.loading
    ensures Navigate(Auth.AfterLogout(s), "/dashboard") == ("/login", Shows(LoginView, false))
  {
  }
}
