/** The dashboard page: its auth gate, the fetch effect with its counts, the
    filtered and paged table (six rows a page), the weekday histogram and the
    active-percentage trend. */
module Dashboard {
  import opened Basics
  import opened UserTable

  const RowsPerPage: nat := 6
  const DayLabels: seq<string> := ["Sun", "Mon", "Tue", "Wed", "Thu", "Fri", "Sat"]

  /** What the page renders before its content. */
  datatype Gate = Nothing | ToLogin | Content

  /** Nothing while auth is loading, a redirect to `/login` only once loading
      has finished and the user is not authenticated, the page otherwise. */
  function PageGate(authLoading: bool, isAuthenticated: bool): (g: Gate)
    ensures g.Nothing? <==> authLoading
    ensures g.ToLogin? <==> !authLoading && !isAuthenticated
    ensures g.Content? <==> !authLoading && isAuthenticated
  {
    if authLoading then Nothing else if !isAuthenticated then ToLogin else Content
  }

  /** `Math.round(active / total * 100)`, or 0 without users, computed exactly
      on rationals: the nearest integer, halves rounded up. */
  function Trend(active: nat, total: nat): (r: nat)
    ensures total == 0 ==> r == 0
    ensures total > 0 ==> 2 * total * r <= 200 * active + total < 2 * total * (r + 1)
    ensures active <= total ==> r <= 100
  {
    if total > 0 then
      RoundingBounds(active, total);
      (200 * active + total) / (2 * total)
    else 0
  }

  lemma RoundingBounds(active: nat, total: nat)
    requires total > 0
    ensures var r := (200 * active + total) / (2 * total);
            2 * total * r <= 200 * active + total < 2 * total * (r + 1) && (active <= total ==> r <= 100)
  {
    var n, d := 200 * active + total, 2 * total;
    var r, m := n / d, n % d;
    assert n == d * r + m && 0 <= m < d;
    assert d * (r + 1) == d * r + d;
    if active <= total {
      assert n < d * 101;
      if r > 100 {
        MulMono(d, 101, r);
        assert false;
      }
    }
  }

  lemma MulMono(d: nat, x: nat, y: nat)
    requires x <= y
    ensures d * x <= d * y
  {
    assert d * y == d * x + d * (y - x);
  }

  /** One bar of the weekday chart. */
  datatype DayBucket = DayBucket(day: string, count: nat)

  /** The number of users whose creation weekday is `d`. */
  function CountOnDay(us: seq<User>, dayOf: User -> int, d: int): nat
    decreases |us|
  {
    if us == [] then 0
    else CountOnDay(us[..|us| - 1], dayOf, d) + (if dayOf(us[|us| - 1]) == d then 1 else 0)
  }

  /** `getDay()` yields 0..6 for a valid date; anything else stands for the `NaN` of an invalid one. */
  predicate AllDaysValid(us: seq<User>, dayOf: User -> int) {
    forall i :: 0 <= i < |us| ==> 0 <= dayOf(us[i]) < 7
  }

  function Total(bs: seq<DayBucket>): nat {
    if bs == [] then 0 else Total(bs[..|bs| - 1]) + bs[|bs| - 1].count
  }

  function DayBuckets(us: seq<User>, dayOf: User -> int): (bs: seq<DayBucket>)
    ensures |bs| == 7
  {
    seq(7, d requires 0 <= d < 7 => DayBucket(DayLabels[d], CountOnDay(us, dayOf, d)))
  }

  lemma TotalBump(bs: seq<DayBucket>, d: nat)
    requires d < |bs|
    ensures Total(bs[d := bs[d].(count := bs[d].count + 1)]) == Total(bs) + 1
    decreases |bs|
  {
    var bs' := bs[d := bs[d].(count := bs[d].count + 1)];
    if d < |bs| - 1 {
      assert bs'[..|bs'| - 1] == bs[..|bs| - 1][d := bs[d].(count := bs[d].count + 1)];
      TotalBump(bs[..|bs| - 1], d);
    } else {
      assert bs'[..|bs'| - 1] == bs[..|bs| - 1];
    }
  }

  lemma TotalZero(bs: seq<DayBucket>)
    requires forall i :: 0 <= i < |bs| ==> bs[i].count == 0
    ensures Total(bs) == 0
  {
  }

  /** With valid weekdays, the seven buckets together count every user once. */
  lemma {:induction false} DayBucketsTotal(us: seq<User>, dayOf: User -> int)
    requires AllDaysValid(us, dayOf)
    ensures Total(DayBuckets(us, dayOf)) == |us|
    decreases |us|
  {
    if us == [] {
      TotalZero(DayBuckets(us, dayOf));
    } else {
      var init, x := us[..|us| - 1], us[|us| - 1];
      assert AllDaysValid(init, dayOf) by {
        forall i | 0 <= i < |init| ensures 0 <= dayOf(init[i]) < 7 {
          assert init[i] == us[i];
        }
      }
      DayBucketsTotal(init, dayOf);
      var d := dayOf(x);
      assert 0 <= d < 7 by { assert x == us[|us| - 1]; }
      var before := DayBuckets(init, dayOf);
      assert DayBuckets(us, dayOf) == before[d := before[d].(count := before[d].count + 1)];
      TotalBump(before, d);
    }
  }

  /** `dayData`: seven zeroed buckets, one increment per user. An invalid date
      makes `dayData[d]` undefined, and the update, which runs while the page
      renders, throws: the whole dashboard fails to render, not only the chart.
      `None` stands for that failure. */
  method DayHistogram(us: seq<User>, dayOf: User -> int) returns (r: Option<seq<DayBucket>>)
    ensures r.Some? <==> AllDaysValid(us, dayOf)
    ensures r.Some? ==> r.value == DayBuckets(us, dayOf)
    ensures r.Some? ==> |r.value| == 7 && Total(r.value) == |us|
    ensures r.Some? ==> forall d :: 0 <= d < 7 ==> r.value[d].day == DayLabels[d]
  {
    var dayData := new DayBucket[7](d requires 0 <= d < 7 => DayBucket(DayLabels[d], 0));
    var i := 0;
    while i < |us|
      invariant 0 <= i <= |us|
      invariant AllDaysValid(us[..i], dayOf)
      invariant forall d :: 0 <= d < 7 ==> dayData[d] == DayBucket(DayLabels[d], CountOnDay(us[..i], dayOf, d))
    {
      var d := dayOf(us[i]);
      if !(0 <= d < 7) {
        return None;
      }
      dayData[d] := dayData[d].(count := dayData[d].count + 1);
      assert us[..i + 1][..i] == us[..i];
      i := i + 1;
    }
    assert us[..i] == us;
    r := Some(dayData[..]);
    DayBucketsTotal(us, dayOf);
  }

  /** The page's state: what the fetch effect stored and what the controls set. */
  class DashboardPage {
    var users: seq<User>
    var loading: bool
    var totalUsers: nat
    var activeUsers: nat
    var inactiveUsers: nat
    var search: string
    var statusFilter: StatusFilter
    var page: nat

    /** The three stat cards agree with the stored list. */
    ghost predicate Valid()
      reads this
    {
      totalUsers == |users| && activeUsers == ActiveCount(users) && inactiveUsers == InactiveCount(users)
    }

    constructor ()
      ensures users == [] && loading && totalUsers == 0 && activeUsers == 0 && inactiveUsers == 0
      ensures search == "" && statusFilter == All && page == 0
      ensures Valid()
    {
      users := [];
      loading := true;
      totalUsers, activeUsers, inactiveUsers := 0, 0, 0;
      search := "";
      statusFilter := All;
      page := 0;
    }

    /** The fetch effect, run when the auth state changes: it asks for `/users`
        only once auth is resolved and the user is authenticated. A failed
        request keeps the old list and only ends the loading state. */
    method FetchUsers(authLoading: bool, isAuthenticated: bool, response: Reply<seq<RawUser>>)
      returns (requested: bool)
      requires Valid()
      modifies this
      ensures requested <==> !authLoading && isAuthenticated
      ensures !requested ==> unchanged(this)
      ensures requested && response.Ok? ==> users == NormaliseAll(response.value)
      ensures requested && response.Fail? ==> users == old(users)
      ensures requested ==> !loading
      ensures Valid()
      ensures activeUsers + inactiveUsers == totalUsers == |users|
      ensures search == old(search) && statusFilter == old(statusFilter) && page == old(page)
    {
      CountsPartition(users);
      if authLoading || !isAuthenticated {
        return false;
      }
      requested := true;
      if response.Ok? {
        var usersData := NormaliseAll(response.value);
        users := usersData;
        totalUsers := |usersData|;
        var activeCount := ActiveCount(usersData);
        activeUsers := activeCount;
        CountsPartition(usersData);
        inactiveUsers := |usersData| - activeCount;
      }
      loading := false;
    }

    function Filtered(): (r: seq<User>)
      reads this
    {
      UserTable.Filtered(users, search, statusFilter)
    }

    /** The rows on the current page: at most six, a contiguous run of `Filtered()`. */
    function Paginated(): (r: seq<User>)
      reads this
      ensures |r| <= RowsPerPage
      ensures |r| == if page * RowsPerPage >= |Filtered()| then 0
                     else Min(RowsPerPage, |Filtered()| - page * RowsPerPage)
      ensures forall i :: 0 <= i < |r| ==>
                page * RowsPerPage + i < |Filtered()| && r[i] == Filtered()[page * RowsPerPage + i]
    {
      Page(Filtered(), page, RowsPerPage)
    }

    /** The trend figure of the "Active Users" card. */
    function ActiveTrend(): (r: nat)
      reads this
      requires Valid()
      ensures r <= 100
      ensures totalUsers == 0 ==> r == 0
    {
      CountsPartition(users);
      Trend(activeUsers, totalUsers)
    }

    /** Typing in the search box goes back to the first page. */
    method SetSearch(text: string)
      modifies this
      ensures search == text && page == 0
      ensures users == old(users) && statusFilter == old(statusFilter) && loading == old(loading)
      ensures totalUsers == old(totalUsers) && activeUsers == old(activeUsers) && inactiveUsers == old(inactiveUsers)
    {
      search := text;
      page := 0;
    }

    /** Choosing a status goes back to the first page. */
    method SetStatusFilter(f: StatusFilter)
      modifies this
      ensures statusFilter == f && page == 0
      ensures users == old(users) && search == old(search) && loading == old(loading)
      ensures totalUsers == old(totalUsers) && activeUsers == old(activeUsers) && inactiveUsers == old(inactiveUsers)
    {
      statusFilter := f;
      page := 0;
    }

    /** The pagination control's page change. */
    method SetPage(p: nat)
      modifies this
      ensures page == p
      ensures users == old(users) && search == old(search) && statusFilter == old(statusFilter)
      ensures loading == old(loading)
      ensures totalUsers == old(totalUsers) && activeUsers == old(activeUsers) && inactiveUsers == old(inactiveUsers)
    {
      page := p;
    }
  }
}
