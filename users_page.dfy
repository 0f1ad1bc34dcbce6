/** The users page: the fetch effect that normalises and sorts the list
    newest first, the filtered and paged table (eight rows a page), the
    quick-stat counts and the row numbers. */
module UsersPage {
  import opened Basics
  import opened UserTable

  const RowsPerPage: nat := 8

  /** Ordered by `created_at`, newest first. */
  predicate NewestFirst(s: seq<User>) {
    forall i, j :: 0 <= i < j < |s| ==> s[i].createdAt >= s[j].createdAt
  }

  /** `usersData.sort((a, b) => new Date(b.created_at) - new Date(a.created_at))`,
      in place on the array: insertion sort, one element at a time. */
  method SortNewestFirst(a: array<User>)
    modifies a
    ensures NewestFirst(a[..])
    ensures multiset(a[..]) == old(multiset(a[..]))
  {
    var i := 0;
    while i < a.Length
      invariant 0 <= i <= a.Length
      invariant NewestFirst(a[..i])
      invariant multiset(a[..]) == old(multiset(a[..]))
    {
      InsertNewest(a, i);
      i := i + 1;
    }
    assert a[..] == a[..a.Length];
  }

  /** Moves `a[i]` left into the ordered prefix `a[..i]`. */
  method InsertNewest(a: array<User>, i: nat)
    requires i < a.Length
    requires NewestFirst(a[..i])
    modifies a
    ensures NewestFirst(a[..i + 1])
    ensures multiset(a[..]) == old(multiset(a[..]))
  {
    var j := i;
    while j > 0 && a[j - 1].createdAt < a[j].createdAt
      invariant 0 <= j <= i
      invariant forall p, q :: 0 <= p < q <= i && q != j ==> a[p].createdAt >= a[q].createdAt
      invariant multiset(a[..]) == old(multiset(a[..]))
    {
      Swap(a, j - 1);
      j := j - 1;
    }
  }

  /** Exchanges `a[k]` and `a[k + 1]`. */
  method Swap(a: array<User>, k: nat)
    requires k + 1 < a.Length
    modifies a
    ensures a[..] == old(a[..])[k := old(a[k + 1])][k + 1 := old(a[k])]
    ensures multiset(a[..]) == old(multiset(a[..]))
  {
    a[k], a[k + 1] := a[k + 1], a[k];
  }

  /** The number shown in the first column: `page * rowsPerPage + idx + 1`. */
  function RowNumber(page: nat, idx: nat): (n: nat)
    ensures n >= 1
  {
    page * RowsPerPage + idx + 1
  }

  /** The number shown beside a row is its 1-based position in the filtered list. */
  lemma RowNumberIsPosition(filtered: seq<User>, page: nat, idx: nat)
    requires idx < |Page(filtered, page, RowsPerPage)|
    ensures RowNumber(page, idx) <= |filtered|
    ensures Page(filtered, page, RowsPerPage)[idx] == filtered[RowNumber(page, idx) - 1]
  {
  }

  /** No two rows on any pages share a number. */
  lemma RowNumbersDistinct(p1: nat, i1: nat, p2: nat, i2: nat)
    requires i1 < RowsPerPage && i2 < RowsPerPage
    requires RowNumber(p1, i1) == RowNumber(p2, i2)
    ensures p1 == p2 && i1 == i2
  {
  }

  /** Numbers run on without a gap from the last row of one page to the first of the next. */
  lemma RowNumbersConsecutive(page: nat)
    ensures RowNumber(page + 1, 0) == RowNumber(page, RowsPerPage - 1) + 1
  {
  }

  class UsersView {
    var users: seq<User>
    var loading: bool
    var search: string
    var statusFilter: StatusFilter
    var page: nat

    constructor ()
      ensures users == [] && loading && search == "" && statusFilter == All && page == 0
    {
      users := [];
      loading := true;
      search := "";
      statusFilter := All;
      page := 0;
    }

    /** The mount effect: `/users` is requested unconditionally; on success the
        list becomes the fetched records, normalised and sorted newest first; a
        failure keeps the list; loading ends either way. */
    method FetchUsers(response: Reply<seq<RawUser>>)
      modifies this
      ensures !loading
      ensures response.Ok? ==> NewestFirst(users) && multiset(users) == multiset(NormaliseAll(response.value))
      ensures response.Fail? ==> users == old(users)
      ensures search == old(search) && statusFilter == old(statusFilter) && page == old(page)
    {
      if response.Ok? {
        var usersData := NormaliseAll(response.value);
        var a := new User[|usersData|](i requires 0 <= i < |usersData| => usersData[i]);
        assert a[..] == usersData;
        SortNewestFirst(a);
        users := a[..];
      }
      loading := false;
    }

    function Filtered(): (r: seq<User>)
      reads this
    {
      UserTable.Filtered(users, search, statusFilter)
    }

    /** The rows on the current page: at most eight, a contiguous run of `Filtered()`. */
    function Paginated(): (r: seq<User>)
      reads this
      ensures |r| <= RowsPerPage
      ensures |r| == if page * RowsPerPage >= |Filtered()| then 0
                     else Min(RowsPerPage, |Filtered()| - page * RowsPerPage)
      ensures forall i :: 0 <= i < |r| ==>
                page * RowsPerPage + i < |Filtered()| && r[i] == Filtered()[page * RowsPerPage + i]
    {
      Page(Filtered(), page, RowsPerPage)
    }

    /** The "Active" and "Inactive" stat cards. */
    function Counts(): (r: (nat, nat))
      reads this
      ensures r.0 + r.1 == |users|
      ensures r.1 == InactiveCount(users)
    {
      CountsPartition(users);
      (ActiveCount(users), |users| - ActiveCount(users))
    }

    /** Typing in the search box goes back to the first page. */
    method SetSearch(text: string)
      modifies this
      ensures search == text && page == 0
      ensures users == old(users) && statusFilter == old(statusFilter) && loading == old(loading)
    {
      search := text;
      page := 0;
    }

    /** Choosing a status goes back to the first page. */
    method SetStatusFilter(f: StatusFilter)
      modifies this
      ensures statusFilter == f && page == 0
      ensures users == old(users) && search == old(search) && loading == old(loading)
    {
      statusFilter := f;
      page := 0;
    }

    /** The pagination control's page change. */
    method SetPage(p: nat)
      modifies this
      ensures page == p
      ensures users == old(users) && search == old(search) && statusFilter == old(statusFilter)
      ensures loading == old(loading)
    {
      page := p;
    }
  }
}
