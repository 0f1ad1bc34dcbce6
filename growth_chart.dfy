/** The user-growth chart: users are counted per month key in a dictionary,
    whose keys a JavaScript object keeps in insertion order, i.e. in the order
    in which each month first occurs; the chart lists one bar per key. The
    month key of a record is supplied as a function (`toLocaleString` is
    locale dependent). */
module GrowthChart {
  import opened Basics
  import opened UserTable

  /** One entry of `chartData`. */
  datatype MonthCount = MonthCount(month: string, users: nat)

  function MonthsOf(us: seq<User>, monthOf: User -> string): (ms: seq<string>)
    ensures |ms| == |us|
    ensures forall i :: 0 <= i < |us| ==> ms[i] == monthOf(us[i])
  {
    seq(|us|, i requires 0 <= i < |us| => monthOf(us[i]))
  }

  /** The distinct keys of `ms`, each where it first occurs. */
  function FirstOccurrences(ms: seq<string>): seq<string>
    decreases |ms|
  {
    if ms == [] then []
    else
      var keys := FirstOccurrences(ms[..|ms| - 1]);
      if ms[|ms| - 1] in keys then keys else keys + [ms[|ms| - 1]]
  }

  /** How often `k` occurs in `ms`. */
  function Occurrences(ms: seq<string>, k: string): nat
    decreases |ms|
  {
    if ms == [] then 0
    else Occurrences(ms[..|ms| - 1], k) + (if ms[|ms| - 1] == k then 1 else 0)
  }

  /** Where `k` first occurs in `ms`. */
  function FirstIndex(ms: seq<string>, k: string): (i: nat)
    requires k in ms
    ensures i < |ms| && ms[i] == k
    ensures forall j :: 0 <= j < i ==> ms[j] != k
    decreases |ms|
  {
    var init := ms[..|ms| - 1];
    if k in init then FirstIndex(init, k) else |ms| - 1
  }

  predicate Distinct(ks: seq<string>) {
    forall i, j :: 0 <= i < j < |ks| ==> ks[i] != ks[j]
  }

  /** One entry per key, counted over `ms`. */
  function Entries(ks: seq<string>, ms: seq<string>): (es: seq<MonthCount>)
    decreases |ks|
  {
    if ks == [] then []
    else Entries(ks[..|ks| - 1], ms) + [MonthCount(ks[|ks| - 1], Occurrences(ms, ks[|ks| - 1]))]
  }

  /** The chart the component draws for the month keys `ms`. */
  function ChartData(ms: seq<string>): seq<MonthCount> {
    Entries(FirstOccurrences(ms), ms)
  }

  function TotalUsers(es: seq<MonthCount>): nat
    decreases |es|
  {
    if es == [] then 0 else TotalUsers(es[..|es| - 1]) + es[|es| - 1].users
  }

  /** The keys are distinct and are exactly the months that occur. */
  lemma {:induction false} FirstOccurrencesKeys(ms: seq<string>)
    ensures Distinct(FirstOccurrences(ms))
    ensures forall k :: k in FirstOccurrences(ms) <==> k in ms
    decreases |ms|
  {
    if ms != [] {
      var init := ms[..|ms| - 1];
      FirstOccurrencesKeys(init);
      assert ms == init + [ms[|ms| - 1]];
    }
  }

  /** Keys come in the order of their first occurrence. */
  lemma {:induction false} FirstOccurrencesOrder(ms: seq<string>)
    ensures forall k :: k in FirstOccurrences(ms) ==> k in ms
    ensures forall i, j :: 0 <= i < j < |FirstOccurrences(ms)| ==>
              FirstIndex(ms, FirstOccurrences(ms)[i]) < FirstIndex(ms, FirstOccurrences(ms)[j])
    decreases |ms|
  {
    FirstOccurrencesKeys(ms);
    if ms != [] {
      var init, x := ms[..|ms| - 1], ms[|ms| - 1];
      FirstOccurrencesOrder(init);
      FirstOccurrencesKeys(init);
      var ks, ks0 := FirstOccurrences(ms), FirstOccurrences(init);
      forall i, j | 0 <= i < j < |ks|
        ensures FirstIndex(ms, ks[i]) < FirstIndex(ms, ks[j])
      {
        assert ks[i] in init;
        if j < |ks0| {
          assert ks[j] == ks0[j] && ks[i] == ks0[i];
        } else {
          assert ks[j] == x && x !in init;
          assert FirstIndex(init, ks[i]) < |init|;
        }
      }
    }
  }

  lemma {:induction false} EntriesAt(ks: seq<string>, ms: seq<string>)
    ensures |Entries(ks, ms)| == |ks|
    ensures forall i :: 0 <= i < |ks| ==> Entries(ks, ms)[i] == MonthCount(ks[i], Occurrences(ms, ks[i]))
    decreases |ks|
  {
    if ks != [] {
      EntriesAt(ks[..|ks| - 1], ms);
    }
  }

  lemma OccurrencesPositive(ms: seq<string>, k: string)
    requires k in ms
    ensures Occurrences(ms, k) >= 1
    decreases |ms|
  {
    if ms[|ms| - 1] != k {
      assert k in ms[..|ms| - 1] by {
        var i :| 0 <= i < |ms| && ms[i] == k;
        assert ms[..|ms| - 1][i] == k;
      }
      OccurrencesPositive(ms[..|ms| - 1], k);
    }
  }

  /** One more month key `x` adds one to the total of distinct keys `ks` when `x` is among them. */
  lemma {:induction false} EntriesTotalSnoc(ks: seq<string>, ms: seq<string>, x: string)
    requires Distinct(ks)
    ensures TotalUsers(Entries(ks, ms + [x])) == TotalUsers(Entries(ks, ms)) + (if x in ks then 1 else 0)
    decreases |ks|
  {
    var ms' := ms + [x];
    assert ms'[..|ms'| - 1] == ms;
    if ks != [] {
      var init, k := ks[..|ks| - 1], ks[|ks| - 1];
      EntriesTotalSnoc(init, ms, x);
      var e', e := Entries(ks, ms'), Entries(ks, ms);
      assert e'[..|e'| - 1] == Entries(init, ms');
      assert e[..|e| - 1] == Entries(init, ms);
      assert ks == init + [k];
      assert x in ks <==> x in init || x == k;
      assert x == k ==> x !in init;
    }
  }

  /** The bars together count every user once. */
  lemma {:induction false} ChartTotal(ms: seq<string>)
    ensures TotalUsers(ChartData(ms)) == |ms|
    decreases |ms|
  {
    if ms != [] {
      var init, x := ms[..|ms| - 1], ms[|ms| - 1];
      assert ms == init + [x];
      ChartTotal(init);
      FirstOccurrencesKeys(init);
      var ks0 := FirstOccurrences(init);
      EntriesTotalSnoc(ks0, init, x);
      if x !in ks0 {
        var es := ChartData(ms);
        assert es[..|es| - 1] == Entries(ks0, ms);
        assert Occurrences(init, x) == 0 by {
          if Occurrences(init, x) != 0 { OccurrencesAbsent(init, x); }
        }
      }
    }
  }

  lemma OccurrencesAbsent(ms: seq<string>, k: string)
    requires k !in ms
    ensures Occurrences(ms, k) == 0
    decreases |ms|
  {
    if ms != [] {
      var init := ms[..|ms| - 1];
      forall i | 0 <= i < |init| ensures init[i] != k {
        assert init[i] == ms[i];
      }
      OccurrencesAbsent(init, k);
    }
  }

  /** `chartData` has exactly one entry per distinct month, each with at least
      one user, together counting every user, in first-occurrence order. */
  lemma ChartDataShape(ms: seq<string>)
    ensures |ChartData(ms)| == |FirstOccurrences(ms)|
    ensures forall i :: 0 <= i < |ChartData(ms)| ==> ChartData(ms)[i].users >= 1
    ensures forall i, j :: 0 <= i < j < |ChartData(ms)| ==> ChartData(ms)[i].month != ChartData(ms)[j].month
    ensures forall k :: k in ms <==> k in Months(ChartData(ms))
    ensures forall i :: 0 <= i < |ChartData(ms)| ==> ChartData(ms)[i].month in ms
    ensures forall i, j :: 0 <= i < j < |ChartData(ms)| ==>
              FirstIndex(ms, ChartData(ms)[i].month) < FirstIndex(ms, ChartData(ms)[j].month)
    ensures TotalUsers(ChartData(ms)) == |ms|
  {
    EntriesAt(FirstOccurrences(ms), ms);
    ChartPositive(ms);
    ChartDistinct(ms);
    ChartMembers(ms);
    ChartOrdered(ms);
    ChartTotal(ms);
  }

  lemma ChartPositive(ms: seq<string>)
    ensures forall i :: 0 <= i < |ChartData(ms)| ==> ChartData(ms)[i].users >= 1
  {
    var ks, cd := FirstOccurrences(ms), ChartData(ms);
    EntriesAt(ks, ms);
    FirstOccurrencesKeys(ms);
    forall i | 0 <= i < |cd| ensures cd[i].users >= 1 {
      OccurrencesPositive(ms, ks[i]);
    }
  }

  lemma ChartDistinct(ms: seq<string>)
    ensures forall i, j :: 0 <= i < j < |ChartData(ms)| ==> ChartData(ms)[i].month != ChartData(ms)[j].month
  {
    EntriesAt(FirstOccurrences(ms), ms);
    FirstOccurrencesKeys(ms);
  }

  /** The month keys of the chart entries, in order. */
  function Months(es: seq<MonthCount>): (ks: seq<string>)
    ensures |ks| == |es|
    ensures forall i :: 0 <= i < |es| ==> ks[i] == es[i].month
  {
    seq(|es|, i requires 0 <= i < |es| => es[i].month)
  }

  lemma ChartMembers(ms: seq<string>)
    ensures forall k :: k in ms <==> k in Months(ChartData(ms))
  {
    var ks := FirstOccurrences(ms);
    EntriesAt(ks, ms);
    FirstOccurrencesKeys(ms);
    assert Months(ChartData(ms)) == ks;
  }

  lemma ChartOrdered(ms: seq<string>)
    ensures forall i :: 0 <= i < |ChartData(ms)| ==> ChartData(ms)[i].month in ms
    ensures forall i, j :: 0 <= i < j < |ChartData(ms)| ==>
              FirstIndex(ms, ChartData(ms)[i].month) < FirstIndex(ms, ChartData(ms)[j].month)
  {
    EntriesAt(FirstOccurrences(ms), ms);
    FirstOccurrencesOrder(ms);
  }

  /** The dictionary `grouped` with its keys in insertion order, as counted over `ms`. */
  ghost predicate Grouped(ms: seq<string>, keys: seq<string>, grouped: map<string, nat>) {
    && keys == FirstOccurrences(ms)
    && (forall k :: k in grouped <==> k in keys)
    && (forall k :: k in grouped ==> grouped[k] == Occurrences(ms, k))
  }

  /** One turn of the `forEach`: `grouped[month] = (grouped[month] || 0) + 1`. */
  lemma GroupStep(ms: seq<string>, keys: seq<string>, grouped: map<string, nat>, month: string)
    requires Grouped(ms, keys, grouped)
    ensures Grouped(ms + [month], if month in grouped then keys else keys + [month],
                    grouped[month := (if month in grouped then grouped[month] else 0) + 1])
  {
    var ms' := ms + [month];
    assert ms'[..|ms'| - 1] == ms;
    FirstOccurrencesKeys(ms);
    if month !in grouped {
      OccurrencesAbsent(ms, month);
    }
  }

  /** Listing the keys of a finished dictionary gives the chart. */
  lemma ListGrouped(ms: seq<string>, keys: seq<string>, grouped: map<string, nat>, chartData: seq<MonthCount>)
    requires Grouped(ms, keys, grouped)
    requires |chartData| == |keys|
    requires forall j :: 0 <= j < |keys| ==> chartData[j] == MonthCount(keys[j], grouped[keys[j]])
    ensures chartData == ChartData(ms)
  {
    EntriesAt(keys, ms);
  }

  /** The component body: `(users || []).forEach(...)` fills `grouped`, then
      `Object.keys(grouped).map(...)` lists it. */
  method BuildChartData(users: Option<seq<User>>, monthOf: User -> string) returns (chartData: seq<MonthCount>)
    ensures users.None? ==> chartData == []
    ensures users.Some? ==> chartData == ChartData(MonthsOf(users.value, monthOf))
    ensures users.Some? ==> TotalUsers(chartData) == |users.value|
  {
    var list := if users.Some? then users.value else [];
    ghost var ms := MonthsOf(list, monthOf);
    var keys: seq<string> := [];
    var grouped: map<string, nat> := map[];
    var i := 0;
    while i < |list|
      invariant 0 <= i <= |list|
      invariant Grouped(ms[..i], keys, grouped)
    {
      var month := monthOf(list[i]);
      assert ms[..i + 1] == ms[..i] + [month];
      GroupStep(ms[..i], keys, grouped, month);
      if month !in grouped {
        keys := keys + [month];
      }
      grouped := grouped[month := (if month in grouped then grouped[month] else 0) + 1];
      i := i + 1;
    }
    assert ms[..i] == ms;
    chartData := seq(|keys|, j requires 0 <= j < |keys| => MonthCount(keys[j], grouped[keys[j]]));
    ListGrouped(ms, keys, grouped, chartData);
    ChartTotal(ms);
  }

  /** Which chart is drawn: `chartType === "area" ? <AreaChart> : <BarChart>`. */
  datatype ChartKind = AreaChart | BarChart

  function KindOf(chartType: string): (k: ChartKind)
    ensures k == AreaChart <==> chartType == "area"
  {
    if chartType == "area" then AreaChart else BarChart
  }

  /** The `chartType` state of the component and its toggle group. */
  class ChartTypeToggle {
    var chartType: string

    constructor ()
      ensures chartType == "area"
    {
      chartType := "area";
    }

    /** `(_, v) => v && setChartType(v)`: the group reports `null` when the
        selected button is pressed again, and a falsy value changes nothing. */
    method OnChange(v: Option<string>)
      modifies this
      ensures v.Some? && v.value != "" ==> chartType == v.value
      ensures v.None? || v.value == "" ==> chartType == old(chartType)
    {
      if v.Some? && v.value != "" {
        chartType := v.value;
      }
    }
  }
}
