# Registration dashboard: session, routing and user-table rules in Dafny

This project models the logic core of a small user-administration
application: a React single-page dashboard over a FastAPI user service.

- **Session** (`Auth`). The authentication provider keeps three state fields
  (`user`, `isAuthenticated`, `loading`) and the `"token"` entry of local
  storage. It has a mount-time resolution, `checkAuth`, `login`, `register`
  and `logout`. API replies are parameters (`Reply<T>`: a payload or a failing
  status), so each success and error path is explicit. A pure transition
  function specifies each operation. The `AuthProvider` class methods are
  proved equal to those functions. Lemmas show that every reachable session
  keeps the invariant and that a resolved session never goes back to loading.
- **Routing** (`Routing`). The `PrivateRoute` guard, the route table with
  React Router's default matching (letter case and trailing slashes are
  ignored), and the final screen reached after redirects. The provider renders
  its children only once loading has finished, so nothing is on screen before
  that. Lemmas tie these to the session: no redirect happens while loading, the
  guard's placeholder is never shown, and an anonymous session is sent to
  `/login` from every guarded path and from `/`.
- **User table** (`UserTable`, `Dashboard`, `UsersPage`). The default for a
  missing `is_active`, the search-and-status filter, page slicing (six and
  eight rows), and the active/inactive counts. Also the weekday histogram and
  the active-percentage trend of the dashboard, the in-place newest-first
  sort of the users page, and the row numbers.
- **Growth chart** (`GrowthChart`). The per-month dictionary, filled in a
  loop and listed in key-insertion order, and the chart-type toggle.
- **Theme** (`Theme`). The dark-mode flag and its stored copy.
- **Server** (`Backend`). Registration with its duplicate check, token
  issue, `/users/me` and the `/users` listing, over a table held as a
  sequence of rows. Registration and `/users/me` return the `User` response
  model, which has no password hash. `Integration` connects the listing to the
  client's default status, and the `/token` and `/users/me` answers to the
  provider's session.

Hashing, password verification and JWT encoding/decoding are function
parameters. Dates are abstract: a record carries an integer timestamp, and
the weekday and the month key of a record are given as functions. Lower-casing
is ASCII.

`login` returns `true` once `/token` succeeds, even if the identity fetch
then fails. `checkAuth` catches that error, removes the token and leaves the
session unauthenticated (`AuthContext.js:23-29`, `39-41`). `Auth.AfterLogin`,
`Auth.LoginTrueYetAnonymous` and `Routing.FailedIdentityAfterLoginGoesToLogin`
state this behaviour.

## Model

| member | source | states |
|---|---|---|
| `Auth.Initial` | frontend/src/contexts/AuthContext.js:9-11 | the first session has no user, is not authenticated, is loading, keeps the stored token, and is Unresolved |
| `Auth.PhaseOf` | frontend/src/contexts/AuthContext.js:9-11 | a valid session is Unresolved exactly while loading, Authenticated exactly when resolved with the flag set (carrying the stored user), Anonymous otherwise |
| `Auth.AfterMount` | frontend/src/contexts/AuthContext.js:13-16 | loading ends false; without a non-empty stored token only `loading` changes; with one the result is `checkAuth`'s; the invariant is kept |
| `Auth.AfterCheck` | frontend/src/contexts/AuthContext.js:18-30 | loading ends false on both paths; success installs the payload, sets the flag and keeps the token; failure removes the token, clears the user and the flag |
| `Auth.AfterLogin` | frontend/src/contexts/AuthContext.js:32-42 | a rejected `/token` propagates its status and leaves the session unchanged; otherwise the result is `true`, and the session is authenticated with the new token or, if identity fails, anonymous with no token; the invariant is kept |
| `Auth.AfterRegister` | frontend/src/contexts/AuthContext.js:44-47 | the session is never changed; the result is `true` exactly when the post succeeds, and otherwise carries its status |
| `Auth.AfterLogout` | frontend/src/contexts/AuthContext.js:49-53 | token, user and flag are cleared, `loading` is kept, and the result is valid |
| `Auth.LogoutIdempotent` | frontend/src/contexts/AuthContext.js:49-53 | logging out twice gives the same session as once |
| `Auth.RunKeepsValid` | frontend/src/contexts/AuthContext.js:8-53 | after any sequence of mount, login, register and logout events from the first render, the flag agrees with the user slot and an authenticated session has a token |
| `Auth.AnonymousHoldsNoToken` | frontend/src/contexts/AuthContext.js:13-53 | in every session reachable from the first render, a resolved session that is not signed in holds no usable token |
| `Auth.LogoutClearsEmptyStoredToken` | frontend/src/contexts/AuthContext.js:13-16 | an empty stored token resolves anonymous without a request and stays stored; logout then removes it, so logout on an anonymous session is not always a no-op |
| `Auth.ResolvedStaysResolved` | frontend/src/contexts/AuthContext.js:13-53 | once `loading` is false, no sequence of events makes it true again |
| `Auth.LoginTrueYetAnonymous` | frontend/src/contexts/AuthContext.js:39-41 | a successful token exchange followed by a failed identity fetch returns `true` yet ends Anonymous with no token |
| `Auth.AuthProvider.constructor` | frontend/src/contexts/AuthContext.js:9-11 | the provider's fields start as the initial session over the stored token |
| `Auth.AuthProvider.CheckAuth` | frontend/src/contexts/AuthContext.js:18-30 | the fields after the call are `AfterCheck` of the fields before |
| `Auth.AuthProvider.Mount` | frontend/src/contexts/AuthContext.js:13-16 | the identity request is issued exactly when a non-empty token is stored; the fields after are `AfterMount` of those before |
| `Auth.AuthProvider.Login` | frontend/src/contexts/AuthContext.js:32-42 | the result and the fields after are `AfterLogin` of the fields before |
| `Auth.AuthProvider.Register` | frontend/src/contexts/AuthContext.js:44-47 | the result is `AfterRegister`'s, and no field changes |
| `Auth.AuthProvider.Logout` | frontend/src/contexts/AuthContext.js:49-53 | the fields after are `AfterLogout` of those before |
| `Routing.PrivateRoute` | frontend/src/App.js:17-26 | placeholder exactly while loading; a history-replacing redirect to `/login` exactly when resolved and anonymous; the layout exactly when resolved and authenticated |
| `Routing.TrimSlashes` | frontend/src/App.js:33-43 | the result is a prefix of the path without a trailing slash (except the root), what it drops is slashes only, and a non-empty path keeps at least one character, so the root `/` stays `/` |
| `Routing.RouteKey` | frontend/src/App.js:33-43 | the matching key is no longer than the path, non-empty for a non-empty path, has no upper-case letter, and has no trailing slash except as the root |
| `Routing.RouteKeyStable` | frontend/src/App.js:33-43 | the matching key of a key is the key itself |
| `Routing.TablePathKeys` | frontend/src/App.js:33-43 | every path the table lists is its own key |
| `Routing.RouteFor` | frontend/src/App.js:33-43 | a path matches a route exactly when its key, lower-cased with trailing slashes dropped, is one of the seven table paths; a key of `/` gives the redirect to `/dashboard` |
| `Routing.SameKeySameRoute` | frontend/src/App.js:33-43 | a path and its key reach the same route, so paths that differ only in case or trailing slashes are routed alike |
| `Routing.CaseAndSlashIgnored` | frontend/src/App.js:37-38 | `/Dashboard/` reaches the dashboard route and `/USERS//` the users route |
| `Routing.RouteClasses` | frontend/src/App.js:33-41 | the guarded paths are exactly those whose key is `/dashboard`, `/users`, `/settings` or `/profile`; the public ones exactly those whose key is `/login` or `/register` |
| `Routing.Visit` | frontend/src/App.js:32-44 | every redirect a navigation step takes moves to a path of lower rank, so redirects end |
| `Routing.Settle` | frontend/src/App.js:33-43 | what the `<Routes>` element alone renders: guarded paths and `/` give the placeholder while loading, land on the login form when anonymous, and show their view in the layout when authenticated (`/` shows the dashboard); public paths show their form; unlisted paths are blank |
| `Routing.Navigate` | frontend/src/contexts/AuthContext.js:57 | while the provider is loading, every path is blank and does not move, because the provider renders no children; afterwards the screen is that of the routes |
| `Routing.SettledNeverLoading` | frontend/src/App.js:17-26 | with loading finished, no chain of redirects ends on the placeholder |
| `Routing.PlaceholderNeverShown` | frontend/src/contexts/AuthContext.js:57 | for every session and path the guard's "Loading..." placeholder is never on screen |
| `Routing.NoRedirectWhileLoading` | frontend/src/App.js:19 | while loading, a guarded path shows the placeholder and does not move |
| `Routing.FreshStartGoesToLogin` | frontend/src/contexts/AuthContext.js:13-16 | with no stored token, after mount a visit to `/dashboard` lands on the login form |
| `Routing.FailedIdentityAfterLoginGoesToLogin` | frontend/src/contexts/AuthContext.js:39-41 | a login whose identity fetch fails returns `true`, and the next guarded visit lands on the login form |
| `Routing.LoginOpensGuardedViews` | frontend/src/App.js:21-25 | after a fully successful login every guarded path renders its view inside the layout |
| `Routing.LogoutGoesToLogin` | frontend/src/contexts/AuthContext.js:49-53 | after logout with auth resolved, `/dashboard` lands on the login form |
| `UserTable.Normalise` | frontend/src/pages/Users.js:32-35 | a record is active exactly when its status is absent or `true`; a `null` status, kept by the code and falsy in every later test, acts as inactive; every other field is kept |
| `UserTable.NormaliseAll` | frontend/src/pages/Dashboard.js:55-58 | one normalised record per fetched record, in the same order |
| `UserTable.FieldMatches` | frontend/src/pages/Users.js:49-50 | a missing field never matches; a match needs a query no longer than the field; an empty query matches every present field, and so does any query whose lower-case form begins the field's |
| `UserTable.MatchesSearch` | frontend/src/pages/Users.js:48-50 | a record without username and email never matches; with an empty query a record matches exactly when it has either |
| `UserTable.MatchesStatus` | frontend/src/pages/Users.js:51-54 | "all" passes every record; "active" passes exactly the active ones and "inactive" exactly the others |
| `UserTable.Keep` | frontend/src/pages/Users.js:55 | a kept record has a username or an email; with an empty query and "all", exactly those records are kept |
| `UserTable.Filtered` | frontend/src/pages/Users.js:47-56 | the result is an order-preserving subsequence; every kept row passes both the search and the status test; each record passing them is kept as often as it occurs, and no other record is kept |
| `UserTable.EmptySearchKeepsNamed` | frontend/src/pages/Users.js:47-56 | with an empty search and status "all", exactly the records with a username or an email are kept |
| `UserTable.StatusFiltersPartition` | frontend/src/pages/Users.js:51-54 | the "active" and "inactive" results share no record, and together they are exactly the "all" result |
| `UserTable.Page` | frontend/src/pages/Users.js:57 | the slice has at most `rows` elements, its length is what JavaScript's clamping gives, and element `i` is element `page * rows + i` of the input |
| `UserTable.PageLocates` | frontend/src/pages/Dashboard.js:91 | row `k` of the filtered list appears on page `k / rows` at position `k % rows` |
| `UserTable.FilteredKeepsAll` | frontend/src/pages/Dashboard.js:81-90 | when every record passes, the filter returns the whole list |
| `UserTable.CountsPartition` | frontend/src/pages/Users.js:58-59 | active count plus inactive count is the list length, and `length - activeCount` is the number of inactive records |
| `UserTable.ActiveCount` | frontend/src/pages/Users.js:58 | at most the list length; equal to it exactly when every record is active, and 0 exactly when none is |
| `Dashboard.PageGate` | frontend/src/pages/Dashboard.js:75-78 | nothing while auth loads; a redirect to `/login` exactly when resolved and anonymous; the content exactly when resolved and authenticated |
| `Dashboard.Trend` | frontend/src/pages/Dashboard.js:167 | 0 without users; otherwise the nearest integer to `100 * active / total` (halves rounded up), which lies in 0..100 |
| `Dashboard.DayHistogram` | frontend/src/pages/Dashboard.js:99-104 | a chart exists exactly when every weekday is in 0..6; it has seven labelled buckets, Sun to Sat, each counting the users created on that weekday, and the counts sum to the number of users |
| `Dashboard.DayBucketsTotal` | frontend/src/pages/Dashboard.js:99-104 | with valid weekdays the seven bucket counts sum to the number of users |
| `Dashboard.DashboardPage.constructor` | frontend/src/pages/Dashboard.js:36-44 | empty list, loading, zero counts, empty search, status "all", first page |
| `Dashboard.DashboardPage.FetchUsers` | frontend/src/pages/Dashboard.js:48-72 | the request is made exactly when auth is resolved and authenticated; otherwise nothing changes; success stores the normalised list; failure keeps the old list; loading ends; active plus inactive equals total equals the list length |
| `Dashboard.DashboardPage.Filtered` | frontend/src/pages/Dashboard.js:81-90 | the page's filtered rows are the shared filter over its list, search text and status |
| `Dashboard.DashboardPage.Paginated` | frontend/src/pages/Dashboard.js:91 | at most six rows, as many as the filtered list has from the page's first row on, each the matching row of the filtered list |
| `Dashboard.DashboardPage.ActiveTrend` | frontend/src/pages/Dashboard.js:167 | the trend of the stored counts is at most 100, and 0 when there are no users |
| `Dashboard.DashboardPage.SetSearch` | frontend/src/pages/Dashboard.js:317 | the search text is set, the page is reset to 0, nothing else changes |
| `Dashboard.DashboardPage.SetStatusFilter` | frontend/src/pages/Dashboard.js:336 | the status filter is set, the page is reset to 0, nothing else changes |
| `Dashboard.DashboardPage.SetPage` | frontend/src/pages/Dashboard.js:457 | only the page changes |
| `UsersPage.SortNewestFirst` | frontend/src/pages/Users.js:36 | after sorting in place the array is ordered by creation time, newest first, and is a permutation of the original |
| `UsersPage.InsertNewest` | frontend/src/pages/Users.js:36 | with the prefix before `i` ordered newest first, moving `a[i]` left leaves the prefix through `i` ordered and the array a permutation of itself |
| `UsersPage.RowNumber` | frontend/src/pages/Users.js:187 | row numbers start at 1 |
| `UsersPage.RowNumberIsPosition` | frontend/src/pages/Users.js:187 | the number beside a row of the page is that row's 1-based position in the filtered list |
| `UsersPage.RowNumbersDistinct` | frontend/src/pages/Users.js:187 | two rows on any pages with the same number are the same row of the same page |
| `UsersPage.RowNumbersConsecutive` | frontend/src/pages/Users.js:187 | numbering runs on without a gap from one page to the next |
| `UsersPage.UsersView.constructor` | frontend/src/pages/Users.js:19-23 | empty list, loading, empty search, status "all", first page |
| `UsersPage.UsersView.FetchUsers` | frontend/src/pages/Users.js:28-45 | on success the list is the normalised fetched records, newest first, as a permutation; on failure the list is kept; loading ends either way |
| `UsersPage.UsersView.Filtered` | frontend/src/pages/Users.js:47-56 | the page's filtered rows are the shared filter over its list, search text and status |
| `UsersPage.UsersView.Paginated` | frontend/src/pages/Users.js:57 | at most eight rows, as many as the filtered list has from the page's first row on, each the matching row of the filtered list |
| `UsersPage.UsersView.Counts` | frontend/src/pages/Users.js:58-59 | the two stat-card counts sum to the list length, and the second is the number of inactive users |
| `UsersPage.UsersView.SetSearch` | frontend/src/pages/Users.js:123 | the search text is set, the page is reset to 0, nothing else changes |
| `UsersPage.UsersView.SetStatusFilter` | frontend/src/pages/Users.js:142 | the status filter is set, the page is reset to 0, nothing else changes |
| `UsersPage.UsersView.SetPage` | frontend/src/pages/Users.js:261 | only the page changes |
| `GrowthChart.BuildChartData` | frontend/src/components/UserGrowthChart.js:49-59 | a missing user list gives an empty chart; otherwise the chart is one entry per distinct month key in first-occurrence order, each with its count, and the counts sum to the number of users |
| `GrowthChart.ChartDataShape` | frontend/src/components/UserGrowthChart.js:56-59 | one entry per distinct month, no month twice, each count at least 1, entries ordered by first occurrence, counts summing to the number of users |
| `GrowthChart.ChartMembers` | frontend/src/components/UserGrowthChart.js:51-56 | a month key labels a chart entry exactly when some user has that month |
| `GrowthChart.ChartOrdered` | frontend/src/components/UserGrowthChart.js:51-56 | each entry's month occurs among the users, and an earlier entry's month first occurs earlier in the user list |
| `GrowthChart.ChartTotal` | frontend/src/components/UserGrowthChart.js:49-54 | the counts of the dictionary sum to the number of users |
| `GrowthChart.FirstOccurrencesKeys` | frontend/src/components/UserGrowthChart.js:51-56 | the dictionary's keys are distinct and are exactly the month keys that occur |
| `GrowthChart.FirstOccurrencesOrder` | frontend/src/components/UserGrowthChart.js:51-56 | a key listed earlier first occurs earlier in the user list |
| `GrowthChart.KindOf` | frontend/src/components/UserGrowthChart.js:103 | the area chart is drawn exactly when the chart type is `"area"` |
| `GrowthChart.ChartTypeToggle.constructor` | frontend/src/components/UserGrowthChart.js:45 | the chart type starts as `"area"` |
| `GrowthChart.ChartTypeToggle.OnChange` | frontend/src/components/UserGrowthChart.js:79 | a non-empty value becomes the chart type; a missing or empty value leaves it unchanged |
| `Theme.ReadTheme` | frontend/src/contexts/ThemeContext.js:11-13 | the initial flag is dark exactly when storage holds `"dark"` |
| `Theme.ModeName` | frontend/src/contexts/ThemeContext.js:22 | the mode is `"dark"` exactly when the flag is set, otherwise `"light"`, and reading it back from storage gives the flag |
| `Theme.ThemeProvider.constructor` | frontend/src/contexts/ThemeContext.js:11-13 | the flag is read from storage, so storage and flag agree |
| `Theme.ThemeProvider.Mode` | frontend/src/contexts/ThemeContext.js:22 | the selected mode is `"dark"` exactly when the flag is set |
| `Theme.ThemeProvider.ToggleDark` | frontend/src/contexts/ThemeContext.js:15-20 | the flag is negated and storage holds the new mode, so re-reading storage reproduces the flag |
| `Theme.ToggleTwice` | frontend/src/contexts/ThemeContext.js:15-20 | toggling twice restores the flag and storage still agrees with it |
| `Backend.Expiry` | backend/main.py:85 | expiry is now plus the given delta; a missing or zero delta gives 15 minutes |
| `Backend.AccessClaims` | backend/main.py:83-87 | the encoded claims are the given `sub` and that expiry |
| `Backend.CreateAccessToken` | backend/main.py:83-87 | up to and including the expiry second, a decoder that returns the claims of unexpired tokens recovers exactly the `sub` and the expiry; after it, a decoder that rejects expired tokens rejects it |
| `Backend.ToOut` | backend/main.py:57-62 | the response keeps id, username, email, status and creation time of the row, and has no password hash |
| `Backend.Clashes` | backend/main.py:94-97 | a row clashes exactly when adding a row with the requested username and email would break the uniqueness of usernames or emails |
| `Backend.FindByUsername` | backend/main.py:125-127 | the result is a row with that username, and is missing exactly when no row has it |
| `Backend.RegisterOutcome` | backend/main.py:93-118 | a username or email clash gives 400 and leaves the table unchanged; otherwise exactly one active row with the given username, email and hashed password is appended and the answer is that row without its hash; unique usernames and emails stay unique |
| `Backend.IssueToken` | backend/main.py:120-141 | 401 exactly when no row has the username or the password does not verify; otherwise a `"bearer"` token encoding `sub` and an expiry 30 minutes ahead |
| `Backend.ReadUsersMe` | backend/main.py:143-156 | for a request at a given time: 401 when the token does not decode at that time or has no `sub`; 404 when no row has that username; otherwise the matching row without its hash |
| `Backend.ListUsers` | backend/main.py:158-168 | one entry per row, in the order the rows are given, carrying id, username, email and creation time, with no status and no token required |
| `Backend.RegisterThenLogin` | backend/main.py:105-141 | after a successful registration, logging in with the same username and password succeeds, given that the password check accepts a password against its own hash |
| `Backend.IssuedTokenIdentifies` | backend/main.py:136-156 | for any request at most 30 minutes after issue, a token the login issued resolves at `/users/me` to that user, given only that the decoder returns the claims of unexpired tokens |
| `Backend.IssuedTokenExpires` | backend/main.py:144-151 | for a request more than 30 minutes after issue, a decoder that rejects expired tokens makes `/users/me` answer 401 to that token |
| `Backend.Database.constructor` | backend/main.py:20-21 | a newly created table is empty and valid |
| `Backend.Database.Register` | backend/main.py:92-118 | the result and the new table are `RegisterOutcome` of the old table, with the next id; the id counter moves on by one exactly when a row is added; usernames, emails and ids stay unique |
| `Integration.ToClient` | backend/main.py:161-167 | a listed user reaches the client with its id, username and email present and no `is_active` |
| `Integration.TokenReply` | frontend/src/contexts/AuthContext.js:33-38 | the client sees a token exactly when `/token` succeeds, and otherwise the error status |
| `Integration.MeReply` | frontend/src/contexts/AuthContext.js:20-22 | the client sees an identity exactly when `/users/me` succeeds, with the response's fields, and otherwise the error status |
| `Integration.AcceptedLoginSignsIn` | backend/main.py:120-156 | a login the server accepts returns `true` and leaves the provider authenticated as the named user, holding the issued token, when `/users/me` is asked no later than the token's expiry second |
| `Integration.ExpiredTokenSignsOutOnMount` | frontend/src/contexts/AuthContext.js:13-29 | a stored token that has expired when the page mounts is removed, and the session ends resolved and anonymous |
| `Integration.RefusedLoginKeepsSession` | backend/main.py:129-134 | a login the server refuses reports 401 and leaves the session unchanged |
| `Integration.ListedUsersAllActive` | frontend/src/pages/Users.js:34 | with the server's listing, every user counts as active and none as inactive |
| `Integration.ListedUsersAllShown` | frontend/src/pages/Users.js:47-56 | with the server's listing, an empty search and status "all" show every user |

## Left out

- Rendering, JSX, the UI components and the chart library: only the values they receive are modelled.
- How React schedules hooks and effects. Each effect and each handler is an explicit method call, and the model does not depend on the order React runs them in.
- React may run the `setIsDark` updater twice in strict mode, and the storage write inside it would then run twice. This is not modelled.
- HTTP through the `api` module and axios. `frontend/src/api.js` is not part of this model. The model assumes it attaches the stored token to each request and rejects an error status. Each request is replaced by its reply, passed as a parameter.
- Timeouts, retries and cancellation: the client code has none. A request that never answers would leave `loading` true forever, and that is not modelled.
- Backend.Database.Register: the model handles one request at a time. FastAPI runs plain `def` handlers in a thread pool. `register_user` checks for a clash in one statement and inserts and commits in later ones (`backend/main.py:94-115`). So two concurrent registrations with the same username or email can both pass the check. What happens then depends on the table's constraints, and `backend/models.py` is not part of this model. The uniqueness in `Database.Valid` and the 400 of `RegisterOutcome` hold only when registrations run one after another.
- Backend.ListUsers: no query has an `order_by` (`backend/main.py:94-97`, `125-127`, `153`, `160`), so the database chooses the row order. The model takes the rows in insertion order. It therefore assumes that `.all()` returns them in that order, with a new user listed last, and that `.first()` returns the earliest matching row. The dashboard's table order and the growth chart's month order follow the same assumption.
- `localStorage` is an optional string field. Failures and quota errors of the storage API are not modelled.
- Date parsing, `getDay`, `toLocaleString` and `toLocaleDateString`. A record carries an integer timestamp; the weekday and the month key are function parameters.
- UsersPage.SortNewestFirst: states that the result is ordered and a permutation of the input. It does not state that JavaScript's sort is stable, so the order of records with equal timestamps is left open. A comparator that returns `NaN` for invalid dates is not modelled.
- GrowthChart.BuildChartData: a JavaScript object lists integer-like keys numerically before the other keys. The model uses insertion order for all keys. That is exact for `toLocaleString` month keys, which are never integer-like.
- Dashboard.Trend: uses exact rational rounding, halves up. It does not model the floating-point rounding of `Math.round(active / total * 100)`.
- `toLowerCase` is lowered for ASCII letters only. Unicode case mapping is not modelled.
- Route matching follows React Router's defaults: case is ignored and trailing slashes are dropped. The model assumes React Router v6 matching (`Routes`, `Route`, `Navigate`, `Outlet`, `frontend/src/App.js:3`), where `caseSensitive` defaults to false and trailing slashes are ignored. Percent-decoding, repeated inner slashes and a base name are not modelled.
- The status filter is a three-valued type. The drop-down offers only these three values, so other strings cannot reach it.
- Backend: argon2 hashing, password verification and JWT encoding and decoding are uninterpreted function parameters. Decoding takes the request time. The model assumes only two things of it: it returns the claims of a token whose `exp` is not earlier than the request time, and, where a lemma says so, it rejects a token whose `exp` is earlier. A token therefore still counts as valid during its expiry second. The clock is a parameter counted in whole seconds.
- Backend: SQLAlchemy sessions, CORS and uvicorn are not modelled. The database is the `Database` class, and its id counter stands for the database's automatic primary key.
- Backend: the health check route and the database configuration in `backend/database.py` are left out, since they hold no rules.
- The login and registration forms, header, sidebar, stat cards, settings, profile, layout, build configuration and theme constants hold no stateable logic and are not modelled.
