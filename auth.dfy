/** The client session kept by the authentication provider: three state
    fields (`user`, `isAuthenticated`, `loading`) and the `"token"` entry of
    the browser's local storage. Requests to the API are given as their
    outcome (`Reply`), so every success and failure path is a parameter. */
module Auth {
  import opened Basics

  /** The payload of `/users/me`. */
  datatype Identity = Identity(id: int, username: string, email: string, isActive: bool, createdAt: Option<int>)

  /** A snapshot of the provider: its state fields and the stored token. */
  datatype Session = Session(user: Option<Identity>, isAuthenticated: bool, loading: bool, token: Option<string>)
  {
    /** The flag agrees with the user slot, and an authenticated session has a stored token. */
    predicate Valid() {
      (isAuthenticated <==> user.Some?) && (isAuthenticated ==> token.Some?)
    }
  }

  /** The resolved view of a session that the rest of the application observes. */
  datatype Phase = Unresolved | Authenticated(who: Identity) | Anonymous

  function PhaseOf(s: Session): (p: Phase)
    requires s.Valid()
    ensures p.Unresolved? <==> s.loading
    ensures p.Authenticated? <==> !s.loading && s.isAuthenticated
    ensures p.Authenticated? ==> s.user == Some(p.who)
  {
    if s.loading then Unresolved
    else if s.isAuthenticated then Authenticated(s.user.value)
    else Anonymous
  }

  /** `if (token)`: a missing entry reads as `null`, and an empty string is falsy too. */
  predicate HasToken(t: Option<string>) {
    t.Some? && t.value != ""
  }

  /** The provider as first rendered, over whatever local storage holds. */
  function Initial(stored: Option<string>): (s: Session)
    ensures s.user == None && !s.isAuthenticated && s.loading && s.token == stored
    ensures s.Valid() && PhaseOf(s) == Unresolved
  {
    Session(None, false, true, stored)
  }

  /** `checkAuth`: one identity request; success installs the payload and keeps
      the token, any failure removes the token and clears the user; either way
      `loading` ends false. */
  function AfterCheck(s: Session, me: Reply<Identity>): (r: Session)
    ensures !r.loading
    ensures me.Ok? ==> r.user == Some(me.value) && r.isAuthenticated && r.token == s.token
    ensures me.Fail? ==> r.user == None && !r.isAuthenticated && r.token == None
    ensures me.Fail? || s.token.Some? ==> r.Valid()
  {
    match me
    case Ok(payload) => s.(user := Some(payload), isAuthenticated := true, loading := false)
    case Fail(_) => s.(user := None, isAuthenticated := false, loading := false, token := None)
  }

  /** The mount effect: with no usable token only `loading` changes; otherwise `checkAuth` runs. */
  function AfterMount(s: Session, me: Reply<Identity>): (r: Session)
    ensures !r.loading
    ensures !HasToken(s.token) ==> r == s.(loading := false)
    ensures HasToken(s.token) ==> r == AfterCheck(s, me)
    ensures s.Valid() ==> r.Valid()
  {
    if HasToken(s.token) then AfterCheck(s, me) else s.(loading := false)
  }

  /** `login`: a rejected `/token` propagates and nothing changes, because the
      token is written only after the awaited post; otherwise the token is
      stored, `checkAuth` runs, and `true` is returned whatever it found. */
  function AfterLogin(s: Session, tokenReply: Reply<string>, me: Reply<Identity>): (r: (Reply<bool>, Session))
    ensures tokenReply.Fail? ==> r == (Fail(tokenReply.status), s)
    ensures tokenReply.Ok? ==> r.0 == Ok(true) && !r.1.loading
    ensures tokenReply.Ok? && me.Ok? ==>
              r.1.isAuthenticated && r.1.user == Some(me.value) && r.1.token == Some(tokenReply.value)
    ensures tokenReply.Ok? && me.Fail? ==> !r.1.isAuthenticated && r.1.user == None && r.1.token == None
    ensures s.Valid() ==> r.1.Valid()
  {
    match tokenReply
    case Fail(status) => (Fail(status), s)
    case Ok(accessToken) => (Ok(true), AfterCheck(s.(token := Some(accessToken)), me))
  }

  /** `register`: one post; the session is never touched. */
  function AfterRegister(s: Session, reply: Reply<()>): (r: (Reply<bool>, Session))
    ensures r.1 == s
    ensures r.0.Ok? <==> reply.Ok?
    ensures r.0.Ok? ==> r.0.value
    ensures reply.Fail? ==> r.0 == Fail(reply.status)
  {
    match reply
    case Ok(_) => (Ok(true), s)
    case Fail(status) => (Fail(status), s)
  }

  /** `logout`: no request; the token, the user and the flag are cleared, `loading` is kept. */
  function AfterLogout(s: Session): (r: Session)
    ensures r.token == None && r.user == None && !r.isAuthenticated
    ensures r.loading == s.loading
    ensures r.Valid()
  {
    s.(user := None, isAuthenticated := false, token := None)
  }

  /** Logging out twice leaves the same session as logging out once. */
  lemma LogoutIdempotent(s: Session)
    ensures AfterLogout(AfterLogout(s)) == AfterLogout(s)
  {
  }

  /** One user-visible step of the provider. */
  datatype Event =
    | MountEvent(me: Reply<Identity>)
    | LoginEvent(tokenReply: Reply<string>, loginMe: Reply<Identity>)
    | RegisterEvent(reply: Reply<()>)
    | LogoutEvent

  function Step(s: Session, e: Event): Session {
    match e
    case MountEvent(me) => AfterMount(s, me)
    case LoginEvent(tokenReply, me) => AfterLogin(s, tokenReply, me).1
    case RegisterEvent(reply) => AfterRegister(s, reply).1
    case LogoutEvent => AfterLogout(s)
  }

  /** The session after a sequence of events, applied in order. */
  function Run(s: Session, events: seq<Event>): Session
    decreases |events|
  {
    if events == [] then s else Step(Run(s, events[..|events| - 1]), events[|events| - 1])
  }

  /** Every session reachable from the first render keeps the invariant. */
  lemma {:induction false} RunKeepsValid(stored: Option<string>, events: seq<Event>)
    ensures Run(Initial(stored), events).Valid()
    decreases |events|
  {
    if events != [] {
      RunKeepsValid(stored, events[..|events| - 1]);
    }
  }

  /** A resolved session that is not signed in holds no usable token: a
      failed identity check removes it, and so does logout. */
  lemma {:induction false} AnonymousHoldsNoToken(stored: Option<string>, events: seq<Event>)
    ensures var s := Run(Initial(stored), events);
            !s.loading && !s.isAuthenticated ==> !HasToken(s.token)
    decreases |events|
  {
    if events != [] {
      AnonymousHoldsNoToken(stored, events[..|events| - 1]);
    }
  }

  /** Logout is not a no-op on every anonymous session: an empty stored token
      never triggers `checkAuth`, so it stays in storage until logout removes it. */
  lemma LogoutClearsEmptyStoredToken(me: Reply<Identity>)
    ensures PhaseOf(AfterMount(Initial(Some("")), me)) == Anonymous
    ensures AfterMount(Initial(Some("")), me).token == Some("")
    ensures AfterLogout(AfterMount(Initial(Some("")), me)).token == None
  {
  }

  /** Once resolved, a session never returns to the loading state: only a
      fresh start does that. */
  lemma {:induction false} ResolvedStaysResolved(s: Session, events: seq<Event>)
    requires !s.loading
    ensures !Run(s, events).loading
    decreases |events|
  {
    if events != [] {
      ResolvedStaysResolved(s, events[..|events| - 1]);
    }
  }

  /** A successful token exchange whose identity fetch then fails: `login`
      still reports success, yet the session ends anonymous and tokenless. */
  lemma LoginTrueYetAnonymous(s: Session, accessToken: string, status: int)
    requires s.Valid()
    ensures AfterLogin(s, Ok(accessToken), Fail(status)).0 == Ok(true)
    ensures PhaseOf(AfterLogin(s, Ok(accessToken), Fail(status)).1) == Anonymous
    ensures AfterLogin(s, Ok(accessToken), Fail(status)).1.token == None
  {
  }

  /** The provider object: its fields are what the setters and `localStorage` change. */
  class AuthProvider {
    var user: Option<Identity>
    var isAuthenticated: bool
    var loading: bool
    var token: Option<string>

    function State(): Session
      reads this
    {
      Session(user, isAuthenticated, loading, token)
    }

    constructor (stored: Option<string>)
      ensures State() == Initial(stored)
    {
      user := None;
      isAuthenticated := false;
      loading := true;
      token := stored;
    }

    method CheckAuth(me: Reply<Identity>)
      modifies this
      ensures State() == AfterCheck(old(State()), me)
    {
      match me {
        case Ok(payload) =>
          user := Some(payload);
          isAuthenticated := true;
        case Fail(_) =>
          token := None;
          user := None;
          isAuthenticated := false;
      }
      loading := false;
    }

    /** The mount effect; `requested` says whether the identity request was issued. */
    method Mount(me: Reply<Identity>) returns (requested: bool)
      modifies this
      ensures requested == HasToken(old(token))
      ensures State() == AfterMount(old(State()), me)
    {
      requested := token.Some? && token.value != "";
      if requested {
        CheckAuth(me);
      } else {
        loading := false;
      }
    }

    method Login(username: string, password: string, tokenReply: Reply<string>, me: Reply<Identity>)
      returns (r: Reply<bool>)
      modifies this
      ensures (r, State()) == AfterLogin(old(State()), tokenReply, me)
    {
      if tokenReply.Fail? {
        return Fail(tokenReply.status);
      }
      token := Some(tokenReply.value);
      CheckAuth(me);
      r := Ok(true);
    }

    method Register(username: string, email: string, password: string, reply: Reply<()>)
      returns (r: Reply<bool>)
      ensures (r, State()) == AfterRegister(State(), reply)
    {
      if reply.Fail? {
        return Fail(reply.status);
      }
      r := Ok(true);
    }

    method Logout()
      modifies this
      ensures State() == AfterLogout(old(State()))
    {
      token := None;
      user := None;
      isAuthenticated := false;
    }
  }
}
