/** The API server's user-table rules. The table is a sequence of rows in
    insertion order; hashing, password checks and JWT encoding and decoding
    are functions given as parameters; time is a number of seconds. */
module Backend {
  import opened Basics

  /** A row of the `users` table. */
  datatype DbUser = DbUser(id: int, username: string, email: string, hashedPassword: string,
                           isActive: bool, createdAt: Option<int>)

  /** A handler's answer: the payload, or an `HTTPException` with its status and detail. */
  datatype Response<T> = Success(value: T) | HttpError(status: int, detail: string)

  /** The `User` response model: what `/register` and `/users/me` send back
      for a row. The password hash is not part of it. */
  datatype UserOut = UserOut(id: int, username: string, email: string, isActive: bool, createdAt: Option<int>)

  /** The claims of an access token: `sub` and `exp`. */
  datatype Claims = Claims(sub: Option<string>, exp: int)

  datatype Token = Token(accessToken: string, tokenType: string)

  /** What `/users` lists for a row: no status and no password hash. */
  datatype ListedUser = ListedUser(id: int, username: string, email: string, createdAt: Option<int>)

  const AccessTokenExpireMinutes: int := 30
  const DefaultExpireMinutes: int := 15

  /** `datetime.utcnow() + (expires_delta or timedelta(minutes=15))`: a missing
      delta, and a zero one (which Python treats as false), give 15 minutes. */
  function Expiry(now: int, expiresDelta: Option<int>): (exp: int)
    ensures expiresDelta.Some? && expiresDelta.value != 0 ==> exp == now + expiresDelta.value
    ensures expiresDelta.None? || expiresDelta.value == 0 ==> exp == now + DefaultExpireMinutes * 60
  {
    if expiresDelta.Some? && expiresDelta.value != 0 then now + expiresDelta.value
    else now + DefaultExpireMinutes * 60
  }

  /** The claims `create_access_token` encodes: the caller's data plus `exp`. */
  function AccessClaims(sub: string, expiresDelta: Option<int>, now: int): (c: Claims)
    ensures c.sub == Some(sub) && c.exp == Expiry(now, expiresDelta)
  {
    Claims(Some(sub), Expiry(now, expiresDelta))
  }

  /** `jwt.decode` at time `t`, in whole seconds: it returns the encoded
      claims of a token whose `exp` has not passed, the expiry second included.
      Nothing more is assumed of the decoder. */
  ghost predicate DecodesUntilExpiry(encode: Claims -> string, decode: (string, int) -> Option<Claims>) {
    forall c: Claims, t: int :: t <= c.exp ==> decode(encode(c), t) == Some(c)
  }

  /** `jwt.decode` rejects a token once its `exp` has passed, that is, when
      `exp < now` (`ExpiredSignatureError`, a `JWTError`). */
  ghost predicate RejectsExpired(encode: Claims -> string, decode: (string, int) -> Option<Claims>) {
    forall c: Claims, t: int :: t > c.exp ==> decode(encode(c), t).None?
  }

  /** The token is the encoding of the claims alone: until it expires, a
      decoder recovers `sub` and the expiry from it, and once it has expired a
      checking decoder rejects it. */
  function CreateAccessToken(sub: string, expiresDelta: Option<int>, now: int, encode: Claims -> string): (t: string)
    ensures forall decode: (string, int) -> Option<Claims>, at: int
              | DecodesUntilExpiry(encode, decode) && at <= Expiry(now, expiresDelta) ::
              decode(t, at) == Some(Claims(Some(sub), Expiry(now, expiresDelta)))
    ensures forall decode: (string, int) -> Option<Claims>, at: int
              | RejectsExpired(encode, decode) && at > Expiry(now, expiresDelta) ::
              decode(t, at).None?
  {
    encode(AccessClaims(sub, expiresDelta, now))
  }

  /** The projection `response_model=User` applies to a returned row. */
  function ToOut(u: DbUser): (o: UserOut)
    ensures o.id == u.id && o.username == u.username && o.email == u.email
    ensures o.isActive == u.isActive && o.createdAt == u.createdAt
  {
    UserOut(u.id, u.username, u.email, u.isActive, u.createdAt)
  }

  /** The index of the first row that satisfies `p` (a query's `.first()`). */
  function FirstWhere(rows: seq<DbUser>, p: DbUser -> bool): (r: Option<nat>)
    ensures r.Some? ==> r.value < |rows| && p(rows[r.value])
    ensures r.Some? ==> forall j :: 0 <= j < r.value ==> !p(rows[j])
    ensures r.None? <==> forall j :: 0 <= j < |rows| ==> !p(rows[j])
    decreases |rows|
  {
    if rows == [] then None
    else if p(rows[0]) then Some(0)
    else
      match FirstWhere(rows[1..], p)
      case None => None
      case Some(i) => Some(i + 1)
  }

  /** `filter(User.username == name).first()` */
  function FindByUsername(rows: seq<DbUser>, name: string): (r: Option<DbUser>)
    ensures r.Some? ==> r.value in rows && r.value.username == name
    ensures r.None? <==> forall j :: 0 <= j < |rows| ==> rows[j].username != name
  {
    match FirstWhere(rows, (u: DbUser) => u.username == name)
    case None => None
    case Some(i) => Some(rows[i])
  }

  ghost predicate UniqueUsernames(rows: seq<DbUser>) {
    forall i, j :: 0 <= i < j < |rows| ==> rows[i].username != rows[j].username
  }

  ghost predicate UniqueEmails(rows: seq<DbUser>) {
    forall i, j :: 0 <= i < j < |rows| ==> rows[i].email != rows[j].email
  }

  /** `(User.username == username) | (User.email == email)`: a row clashes
      exactly when a second row with this username and email would break the
      uniqueness of usernames or of emails. */
  predicate Clashes(u: DbUser, username: string, email: string)
    ensures var other := DbUser(u.id, username, email, u.hashedPassword, u.isActive, u.createdAt);
            Clashes(u, username, email) <==> !(UniqueUsernames([u, other]) && UniqueEmails([u, other]))
  {
    u.username == username || u.email == email
  }

  /** `register_user` on a table: a clash on username or email is a 400 and
      the table is unchanged; otherwise exactly one active row is appended. */
  function RegisterOutcome(rows: seq<DbUser>, username: string, email: string, password: string,
                           hash: string -> string, now: int, id: int): (r: (Response<UserOut>, seq<DbUser>))
    ensures (exists i :: 0 <= i < |rows| && Clashes(rows[i], username, email)) ==>
              r == (HttpError(400, "Username or email already registered"), rows)
    ensures (forall i :: 0 <= i < |rows| ==> !Clashes(rows[i], username, email)) ==>
              r.1 == rows + [DbUser(id, username, email, hash(password), true, Some(now))] &&
              r.0 == Success(UserOut(id, username, email, true, Some(now)))
    ensures UniqueUsernames(rows) && UniqueEmails(rows) ==> UniqueUsernames(r.1) && UniqueEmails(r.1)
  {
    if FirstWhere(rows, (u: DbUser) => Clashes(u, username, email)).Some? then
      (HttpError(400, "Username or email already registered"), rows)
    else
      var newUser := DbUser(id, username, email, hash(password), true, Some(now));
      (Success(ToOut(newUser)), rows + [newUser])
  }

  /** `login_for_access_token`: 401 when no row has the username or the
      password does not verify against its hash; otherwise a bearer token for
      the username, valid for 30 minutes. */
  function IssueToken(rows: seq<DbUser>, username: string, password: string, now: int,
                      verify: (string, string) -> bool, encode: Claims -> string): (r: Response<Token>)
    ensures r.HttpError? <==> (FindByUsername(rows, username).None? ||
                               !verify(password, FindByUsername(rows, username).value.hashedPassword))
    ensures r.HttpError? ==> r == HttpError(401, "Incorrect username or password")
    ensures r.Success? ==> r.value.tokenType == "bearer"
    ensures r.Success? ==> r.value.accessToken == encode(Claims(Some(username), now + AccessTokenExpireMinutes * 60))
  {
    match FindByUsername(rows, username)
    case None => HttpError(401, "Incorrect username or password")
    case Some(user) =>
      if !verify(password, user.hashedPassword) then HttpError(401, "Incorrect username or password")
      else Success(Token(CreateAccessToken(user.username, Some(AccessTokenExpireMinutes * 60), now, encode), "bearer"))
  }

  /** `read_users_me` for a request at time `at`: 401 when the token does not decode or has no `sub`,
      404 when no row has that username, the row's public fields otherwise. */
  function ReadUsersMe(rows: seq<DbUser>, token: string, at: int, decode: (string, int) -> Option<Claims>): (r: Response<UserOut>)
    ensures (decode(token, at).None? || decode(token, at).value.sub.None?) ==> r == HttpError(401, "Invalid credentials")
    ensures decode(token, at).Some? && decode(token, at).value.sub.Some? ==>
              var name := decode(token, at).value.sub.value;
              (FindByUsername(rows, name).None? ==> r == HttpError(404, "User not found")) &&
              (FindByUsername(rows, name).Some? ==> r == Success(ToOut(FindByUsername(rows, name).value)))
    ensures r.Success? ==> exists j :: 0 <= j < |rows| && ToOut(rows[j]) == r.value
  {
    match decode(token, at)
    case None => HttpError(401, "Invalid credentials")
    case Some(claims) =>
      match claims.sub
      case None => HttpError(401, "Invalid credentials")
      case Some(name) =>
        match FindByUsername(rows, name)
        case None => HttpError(404, "User not found")
        case Some(user) => Success(ToOut(user))
  }

  /** `get_all_users`: no token needed; one entry per row in table order,
      carrying the id, username, email and creation time only. */
  function ListUsers(rows: seq<DbUser>): (r: seq<ListedUser>)
    ensures |r| == |rows|
    ensures forall i :: 0 <= i < |rows| ==>
              r[i].id == rows[i].id && r[i].username == rows[i].username &&
              r[i].email == rows[i].email && r[i].createdAt == rows[i].createdAt
  {
    seq(|rows|, i requires 0 <= i < |rows| => ListedUser(rows[i].id, rows[i].username, rows[i].email, rows[i].createdAt))
  }

  /** A freshly registered user can log in with the password it registered,
      provided the password check accepts a password against its own hash. */
  lemma RegisterThenLogin(rows: seq<DbUser>, username: string, email: string, password: string,
                          hash: string -> string, now: int, id: int, later: int,
                          verify: (string, string) -> bool, encode: Claims -> string)
    requires forall p :: verify(p, hash(p))
    requires RegisterOutcome(rows, username, email, password, hash, now, id).0.Success?
    ensures IssueToken(RegisterOutcome(rows, username, email, password, hash, now, id).1,
                       username, password, later, verify, encode).Success?
  {
    var rows' := RegisterOutcome(rows, username, email, password, hash, now, id).1;
    assert forall i :: 0 <= i < |rows| ==> !Clashes(rows[i], username, email);
    assert rows'[|rows|].username == username;
    var i := FirstWhere(rows', (u: DbUser) => u.username == username);
    assert i.Some? && i.value == |rows|;
  }

  /** A token the login handler issued at `now` identifies its user at
      `/users/me` for any request made up to its expiry second, 30 minutes later. */
  lemma IssuedTokenIdentifies(rows: seq<DbUser>, username: string, password: string, now: int, at: int,
                              verify: (string, string) -> bool, encode: Claims -> string,
                              decode: (string, int) -> Option<Claims>)
    requires DecodesUntilExpiry(encode, decode)
    requires IssueToken(rows, username, password, now, verify, encode).Success?
    requires at <= now + AccessTokenExpireMinutes * 60
    ensures ReadUsersMe(rows, IssueToken(rows, username, password, now, verify, encode).value.accessToken, at, decode)
            == Success(ToOut(FindByUsername(rows, username).value))
  {
    var c := Claims(Some(username), now + AccessTokenExpireMinutes * 60);
    assert decode(encode(c), at) == Some(c);
  }

  /** After its expiry second, 30 minutes after issue, a decoder that checks expiry makes
      `/users/me` answer 401 to that token. */
  lemma IssuedTokenExpires(rows: seq<DbUser>, username: string, password: string, now: int, at: int,
                           verify: (string, string) -> bool, encode: Claims -> string,
                           decode: (string, int) -> Option<Claims>)
    requires RejectsExpired(encode, decode)
    requires IssueToken(rows, username, password, now, verify, encode).Success?
    requires at > now + AccessTokenExpireMinutes * 60
    ensures ReadUsersMe(rows, IssueToken(rows, username, password, now, verify, encode).value.accessToken, at, decode)
            == HttpError(401, "Invalid credentials")
  {
    var c := Claims(Some(username), now + AccessTokenExpireMinutes * 60);
    assert decode(encode(c), at).None?;
  }

  /** The table as the handlers see it. */
  class Database {
    var rows: seq<DbUser>
    var nextId: int

    /** Usernames, emails and ids are unique, and every id is below `nextId`. */
    ghost predicate Valid()
      reads this
    {
      && UniqueUsernames(rows) && UniqueEmails(rows)
      && (forall i :: 0 <= i < |rows| ==> rows[i].id < nextId)
      && (forall i, j :: 0 <= i < j < |rows| ==> rows[i].id != rows[j].id)
    }

    constructor ()
      ensures rows == [] && Valid()
    {
      rows := [];
      nextId := 1;
    }

    /** `register_user`: the duplicate check, then `db.add` and `commit` of the
        new row, whose id the database assigns. */
    method Register(username: string, email: string, password: string, hash: string -> string, now: int)
      returns (r: Response<UserOut>)
      requires Valid()
      modifies this
      ensures Valid()
      ensures (r, rows) == RegisterOutcome(old(rows), username, email, password, hash, now, old(nextId))
      ensures r.HttpError? ==> nextId == old(nextId)
      ensures r.Success? ==> nextId == old(nextId) + 1
    {
      var clash := FirstWhere(rows, (u: DbUser) => Clashes(u, username, email));
      if clash.Some? {
        return HttpError(400, "Username or email already registered");
      }
      var newUser := DbUser(nextId, username, email, hash(password), true, Some(now));
      rows := rows + [newUser];
      nextId := nextId + 1;
      r := Success(ToOut(newUser));
    }
  }
}
