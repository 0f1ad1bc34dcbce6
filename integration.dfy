/** How the client reads the server's answers: the `/users` listing carries
    no status, so the pages' default makes every user active; the `/token`
    and `/users/me` answers drive the session of the authentication provider. */
module Integration {
  import opened Basics
  import Auth
  import Backend
  import UserTable

  /** The JSON of one listed user as the client reads it: `is_active` is
      absent, and a `null` creation time reads as the epoch (`new Date(null)`). */
  function ToClient(u: Backend.ListedUser): (r: UserTable.RawUser)
    ensures r.isActive == UserTable.Missing
    ensures r.id == u.id && r.username == Some(u.username) && r.email == Some(u.email)
  {
    UserTable.RawUser(u.id, Some(u.username), Some(u.email), UserTable.Missing,
                      if u.createdAt.Some? then u.createdAt.value else 0)
  }

  function ClientList(rows: seq<Backend.DbUser>): (r: seq<UserTable.User>)
    ensures |r| == |rows|
  {
    var listed := Backend.ListUsers(rows);
    UserTable.NormaliseAll(seq(|listed|, i requires 0 <= i < |listed| => ToClient(listed[i])))
  }

  /** Every listed user counts as active and none as inactive, whatever the
      table's `is_active` column holds. */
  lemma ListedUsersAllActive(rows: seq<Backend.DbUser>)
    ensures UserTable.ActiveCount(ClientList(rows)) == |rows|
    ensures UserTable.InactiveCount(ClientList(rows)) == 0
  {
    var us := ClientList(rows);
    assert forall i :: 0 <= i < |us| ==> us[i].isActive;
    UserTable.CountsPartition(us);
  }

  /** With an empty search and status "all", the table shows the whole listing. */
  lemma ListedUsersAllShown(rows: seq<Backend.DbUser>)
    ensures UserTable.Filtered(ClientList(rows), "", UserTable.All) == ClientList(rows)
  {
    var us := ClientList(rows);
    assert forall i :: 0 <= i < |us| ==> us[i].username.Some?;
    UserTable.FilteredKeepsAll(us, "", UserTable.All);
  }

  /** The `/token` answer as the provider's `api.post` sees it: axios rejects
      an error status, and a success carries `access_token`. */
  function TokenReply(r: Backend.Response<Backend.Token>): (t: Reply<string>)
    ensures t.Ok? <==> r.Success?
    ensures t.Ok? ==> t.value == r.value.accessToken
    ensures t.Fail? ==> t.status == r.status
  {
    match r
    case Success(tok) => Ok(tok.accessToken)
    case HttpError(status, _) => Fail(status)
  }

  /** The `/users/me` answer as `checkAuth` sees it. */
  function MeReply(r: Backend.Response<Backend.UserOut>): (m: Reply<Auth.Identity>)
    ensures m.Ok? <==> r.Success?
    ensures m.Ok? ==> m.value.id == r.value.id && m.value.username == r.value.username &&
                      m.value.email == r.value.email && m.value.isActive == r.value.isActive &&
                      m.value.createdAt == r.value.createdAt
    ensures m.Fail? ==> m.status == r.status
  {
    match r
    case Success(o) => Ok(Auth.Identity(o.id, o.username, o.email, o.isActive, o.createdAt))
    case HttpError(status, _) => Fail(status)
  }

  /** A login the server accepts signs the client in as the user whose name
      was given, holding the issued token, when the identity request follows
      no later than the token's expiry second (the provider sends it straight away). */
  lemma {:induction false} AcceptedLoginSignsIn(s: Auth.Session, rows: seq<Backend.DbUser>, username: string,
                                                password: string, now: int, at: int,
                                                verify: (string, string) -> bool,
                                                encode: Backend.Claims -> string,
                                                decode: (string, int) -> Option<Backend.Claims>)
    requires Backend.DecodesUntilExpiry(encode, decode)
    requires Backend.IssueToken(rows, username, password, now, verify, encode).Success?
    requires at <= now + Backend.AccessTokenExpireMinutes * 60
    ensures var issued := Backend.IssueToken(rows, username, password, now, verify, encode);
            var r := Auth.AfterLogin(s, TokenReply(issued),
                                     MeReply(Backend.ReadUsersMe(rows, issued.value.accessToken, at, decode)));
            r.0 == Ok(true) && r.1.isAuthenticated && !r.1.loading &&
            r.1.token == Some(issued.value.accessToken) &&
            r.1.user.Some? && r.1.user.value.username == username
  {
    Backend.IssuedTokenIdentifies(rows, username, password, now, at, verify, encode, decode);
  }

  /** A stored token that has expired by the time the page is reopened signs
      the client out on mount: the token is removed and the session is anonymous. */
  lemma {:induction false} ExpiredTokenSignsOutOnMount(rows: seq<Backend.DbUser>, username: string,
                                                       password: string, now: int, at: int,
                                                       verify: (string, string) -> bool,
                                                       encode: Backend.Claims -> string,
                                                       decode: (string, int) -> Option<Backend.Claims>)
    requires Backend.RejectsExpired(encode, decode)
    requires Backend.IssueToken(rows, username, password, now, verify, encode).Success?
    requires at > now + Backend.AccessTokenExpireMinutes * 60
    ensures var tok := Backend.IssueToken(rows, username, password, now, verify, encode).value.accessToken;
            var s := Auth.AfterMount(Auth.Initial(Some(tok)), MeReply(Backend.ReadUsersMe(rows, tok, at, decode)));
            tok != "" ==> (s.Valid() && Auth.PhaseOf(s) == Auth.Anonymous && s.token == None)
  {
    Backend.IssuedTokenExpires(rows, username, password, now, at, verify, encode, decode);
  }

  /** A login the server refuses reports the 401 and leaves the session as it was. */
  lemma RefusedLoginKeepsSession(s: Auth.Session, rows: seq<Backend.DbUser>, username: string,
                                 password: string, now: int, verify: (string, string) -> bool,
                                 encode: Backend.Claims -> string, me: Reply<Auth.Identity>)
    requires Backend.IssueToken(rows, username, password, now, verify, encode).HttpError?
    ensures Auth.AfterLogin(s, TokenReply(Backend.IssueToken(rows, username, password, now, verify, encode)), me)
            == (Fail(401), s)
  {
  }
}
