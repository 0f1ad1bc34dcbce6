/** The table logic that the dashboard page and the users page share: the
    default for a missing status, the search-and-status filter, the page
    slice and the active/inactive counts. Both pages carry their own copy of
    this code; it is defined once here. */
module UserTable {
  import opened Basics

  /** A JSON status field: absent (`undefined`), `null`, or a boolean. */
  datatype JsonFlag = Missing | Null | Given(b: bool)

  /** A user as the `/users` listing delivers it: any field may be missing. */
  datatype RawUser = RawUser(id: int, username: Option<string>, email: Option<string>,
                             isActive: JsonFlag, createdAt: int)

  /** A user after the page has filled in the default status. */
  datatype User = User(id: int, username: Option<string>, email: Option<string>,
                       isActive: bool, createdAt: int)

  /** The three choices of the status drop-down. */
  datatype StatusFilter = All | ActiveOnly | InactiveOnly

  /** `{...u, is_active: u.is_active !== undefined ? u.is_active : true}`. Only
      an absent field takes the default; a `null` is kept, and every later use
      of the field tests its truthiness, so `null` acts as inactive. */
  function Normalise(u: RawUser): (r: User)
    ensures r.isActive <==> u.isActive == Missing || u.isActive == Given(true)
    ensures u.isActive == Null ==> !r.isActive
    ensures r.id == u.id && r.username == u.username && r.email == u.email
    ensures r.createdAt == u.createdAt
  {
    var active := match u.isActive
      case Missing => true
      case Null => false
      case Given(b) => b;
    User(u.id, u.username, u.email, active, u.createdAt)
  }

  /** The `map` over the fetched list: one normalised record per fetched one, in order. */
  function NormaliseAll(us: seq<RawUser>): (r: seq<User>)
    ensures |r| == |us|
    ensures forall i :: 0 <= i < |us| ==> r[i] == Normalise(us[i])
  {
    seq(|us|, i requires 0 <= i < |us| => Normalise(us[i]))
  }

  /** `field?.toLowerCase().includes(query.toLowerCase())`: a missing field never matches. */
  predicate FieldMatches(field: Option<string>, query: string)
    ensures FieldMatches(field, query) ==> field.Some? && |query| <= |field.value|
    ensures field.Some? && query == "" ==> FieldMatches(field, query)
    ensures field.Some? && Lower(query) <= Lower(field.value) ==> FieldMatches(field, query)
  {
    field.Some? && (ContainsLonger(Lower(field.value), Lower(query)); Contains(Lower(field.value), Lower(query)))
  }

  /** The username or the email contains the query, ignoring case. */
  predicate MatchesSearch(u: User, query: string)
    ensures query == "" ==> (MatchesSearch(u, query) <==> u.username.Some? || u.email.Some?)
    ensures u.username.None? && u.email.None? ==> !MatchesSearch(u, query)
  {
    FieldMatches(u.username, query) || FieldMatches(u.email, query)
  }

  predicate MatchesStatus(u: User, f: StatusFilter)
    ensures f == All ==> MatchesStatus(u, f)
    ensures f != All ==> (MatchesStatus(u, f) <==> (u.isActive <==> f == ActiveOnly))
  {
    match f
    case All => true
    case ActiveOnly => u.isActive
    case InactiveOnly => !u.isActive
  }

  /** A record stays in the table when it matches the search and the status. */
  predicate Keep(u: User, query: string, f: StatusFilter)
    ensures Keep(u, query, f) ==> u.username.Some? || u.email.Some?
    ensures query == "" && f == All ==> (Keep(u, query, f) <==> u.username.Some? || u.email.Some?)
  {
    MatchesSearch(u, query) && MatchesStatus(u, f)
  }

  /** `r` can be obtained from `s` by deleting elements (order is preserved). */
  ghost predicate IsSubsequence<T>(r: seq<T>, s: seq<T>)
    decreases |s|
  {
    r == [] || (s != [] && (IsSubsequence(r, s[1..]) || (r[0] == s[0] && IsSubsequence(r[1..], s[1..]))))
  }

  /** `users.filter(u => matchSearch && matchStatus)`. */
  function Filtered(us: seq<User>, query: string, f: StatusFilter): (r: seq<User>)
    ensures IsSubsequence(r, us)
    ensures forall i :: 0 <= i < |r| ==> Keep(r[i], query, f)
    ensures forall u :: multiset(r)[u] == if Keep(u, query, f) then multiset(us)[u] else 0
    decreases |us|
  {
    if us == [] then []
    else
      var rest := Filtered(us[1..], query, f);
      assert us == [us[0]] + us[1..];
      if Keep(us[0], query, f) then [us[0]] + rest else rest
  }

  /** When every record passes, the filter returns the list itself. */
  lemma {:induction false} FilteredKeepsAll(us: seq<User>, query: string, f: StatusFilter)
    requires forall i :: 0 <= i < |us| ==> Keep(us[i], query, f)
    ensures Filtered(us, query, f) == us
    decreases |us|
  {
    if us != [] {
      FilteredKeepsAll(us[1..], query, f);
    }
  }

  /** With an empty search and status "all", exactly the records that have a
      username or an email are kept, each as often as it occurs. */
  lemma EmptySearchKeepsNamed(us: seq<User>)
    ensures forall u :: multiset(Filtered(us, "", All))[u] ==
                        if u.username.Some? || u.email.Some? then multiset(us)[u] else 0
  {
    forall u: User
      ensures Keep(u, "", All) <==> u.username.Some? || u.email.Some?
    {
      if u.username.Some? { ContainsEmpty(Lower(u.username.value)); }
      if u.email.Some? { ContainsEmpty(Lower(u.email.value)); }
    }
  }

  /** The "active" and "inactive" choices split the "all" result: nothing is in
      both, and together they hold exactly what "all" holds. */
  lemma StatusFiltersPartition(us: seq<User>, query: string)
    ensures multiset(Filtered(us, query, ActiveOnly)) * multiset(Filtered(us, query, InactiveOnly)) == multiset{}
    ensures multiset(Filtered(us, query, ActiveOnly)) + multiset(Filtered(us, query, InactiveOnly))
            == multiset(Filtered(us, query, All))
  {
    var a, n, l := multiset(Filtered(us, query, ActiveOnly)), multiset(Filtered(us, query, InactiveOnly)),
                   multiset(Filtered(us, query, All));
    forall u: User
      ensures (a * n)[u] == 0 && (a + n)[u] == l[u]
    {
      StatusSplitAt(us, query, u);
    }
    assert a * n == multiset{};
    assert a + n == l;
  }

  lemma StatusSplitAt(us: seq<User>, query: string, u: User)
    ensures multiset(Filtered(us, query, ActiveOnly))[u] == 0 || multiset(Filtered(us, query, InactiveOnly))[u] == 0
    ensures multiset(Filtered(us, query, ActiveOnly))[u] + multiset(Filtered(us, query, InactiveOnly))[u]
            == multiset(Filtered(us, query, All))[u]
  {
  }

  function Min(a: int, b: int): int {
    if a <= b then a else b
  }

  /** `s.slice(page * rows, page * rows + rows)`: JavaScript clamps both ends. */
  function Page<T>(s: seq<T>, page: nat, rows: nat): (r: seq<T>)
    ensures |r| <= rows
    ensures |r| == if page * rows >= |s| then 0 else Min(rows, |s| - page * rows)
    ensures forall i :: 0 <= i < |r| ==> r[i] == s[page * rows + i]
  {
    s[Min(page * rows, |s|)..Min(page * rows + rows, |s|)]
  }

  /** Every filtered row is on exactly one page: row `k` is row `k % rows` of page `k / rows`. */
  lemma PageLocates<T>(s: seq<T>, rows: nat, k: nat)
    requires rows > 0 && k < |s|
    ensures k % rows < |Page(s, k / rows, rows)|
    ensures Page(s, k / rows, rows)[k % rows] == s[k]
  {
    var p, i := k / rows, k % rows;
    assert k == p * rows + i;
    assert p * rows <= k;
  }

  /** `users.filter((u) => u.is_active).length` */
  function ActiveCount(us: seq<User>): (n: nat)
    ensures n <= |us|
    ensures n == |us| <==> forall i :: 0 <= i < |us| ==> us[i].isActive
    ensures n == 0 <==> forall i :: 0 <= i < |us| ==> !us[i].isActive
    decreases |us|
  {
    if us == [] then 0 else (if us[0].isActive then 1 else 0) + ActiveCount(us[1..])
  }

  /** The number of users whose status is inactive, counted directly. */
  function InactiveCount(us: seq<User>): (n: nat)
  {
    if us == [] then 0 else (if us[0].isActive then 0 else 1) + InactiveCount(us[1..])
  }

  /** The pages compute the inactive count as `users.length - activeCount`;
      that difference is exactly the number of inactive users. */
  lemma {:induction false} CountsPartition(us: seq<User>)
    ensures ActiveCount(us) + InactiveCount(us) == |us|
    ensures |us| - ActiveCount(us) == InactiveCount(us)
  {
    if us != [] {
      CountsPartition(us[1..]);
    }
  }
}
