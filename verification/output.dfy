/**
 * Flattening the windows into output rows (restructure_data_to_output): one row list per
 * (site, day) group, in the order the two maps are visited; a running window id that starts
 * at 1 and grows by one per window; each row carries a month one-hot, the day of the month,
 * the minute of the day, the sensor fields (0 when unset), the weather and the head count.
 */
module Output {
  import opened Wrappers
  import opened Time
  import opened Entities
  import opened Windows
  import Arith

  /** One output row (Rust struct TargetRow); the twelve month columns are `months[0..12]`. */
  datatype TargetRow = TargetRow(
    windowId: int,
    months: seq<real>,
    day: real,
    time: real,
    dewPoint: real,
    luminance: real,
    vocIndex: real,
    co2: real,
    absHumidity: real,
    rh: real,
    temperature: real,
    vecEqCo2: real,
    weather: WeatherPoint,
    people: real)

  /** `unwrap_or_default` on an f32. */
  function OrZero(o: Option<real>): (r: real)
    ensures o.None? ==> r == 0.0
    ensures o.Some? ==> r == o.value
  {
    match o
    case None => 0.0
    case Some(v) => v
  }

  /** The output column of quantity q. */
  function Column(r: TargetRow, q: Quantity): real
  {
    match q
    case DewPoint => r.dewPoint
    case Luminance => r.luminance
    case VocIndex => r.vocIndex
    case Co2 => r.co2
    case AbsHumidity => r.absHumidity
    case Rh => r.rh
    case Temperature => r.temperature
    case VecEqCo2 => r.vecEqCo2
  }

  /** The month columns jan .. dec for a month number. */
  function MonthFlags(month: int): seq<real>
  {
    seq(12, k => if month == k + 1 then 1.0 else 0.0)
  }

  /** The row for one record of a window of day `date`. */
  function Row(id: int, date: Day, rec: MergedRecord): (r: TargetRow)
    ensures r.windowId == id
    ensures |r.months| == 12 && r.months[Civil(date).month - 1] == 1.0
    ensures forall k :: 0 <= k < 12 && k != Civil(date).month - 1 ==> r.months[k] == 0.0
    ensures r.day == Civil(date).day as real
    ensures 0.0 <= r.time < 1440.0 && r.time == MinuteOfDay(rec.time) as real
    ensures forall q :: FieldOf(rec.sensor, q).None? ==> Column(r, q) == 0.0
    ensures forall q :: FieldOf(rec.sensor, q).Some? ==> Column(r, q) == FieldOf(rec.sensor, q).value
    ensures r.weather == rec.weather && r.people == rec.people.people as real
  {
    var c := Civil(date);
    var s := rec.sensor;
    TargetRow(id, MonthFlags(c.month), c.day as real, MinuteOfDay(rec.time) as real,
      OrZero(s.dewPoint), OrZero(s.luminance), OrZero(s.vocIndex), OrZero(s.co2),
      OrZero(s.absHumidity), OrZero(s.rh), OrZero(s.temperature), OrZero(s.vecEqCo2),
      rec.weather, rec.people.people as real)
  }

  /** Exactly one month column is 1: the one of the date's month. */
  lemma MonthOneHot(id: int, date: Day, rec: MergedRecord, k: nat)
    requires k < 12
    ensures Row(id, date, rec).months[k] == 1.0 <==> k + 1 == Civil(date).month
  {
  }

  /** The rows of one window, all carrying the window's id. */
  function WindowRows(id: int, date: Day, window: Window): (r: seq<TargetRow>)
    ensures |r| == |window|
    ensures forall k :: 0 <= k < |window| ==> r[k] == Row(id, date, window[k])
  {
    seq(|window|, k requires 0 <= k < |window| => Row(id, date, window[k]))
  }

  /** A (site, day) entry as the loops visit it: the day and its windows. */
  type Group = (Day, seq<Window>)

  /** The rows of a group whose first window gets id `first`: window j gets `first + j`. */
  function GroupRows(date: Day, windows: seq<Window>, first: int): seq<TargetRow>
  {
    if windows == [] then []
    else
      var n := |windows| - 1;
      GroupRows(date, windows[..n], first) + WindowRows(first + n, date, windows[n])
  }

  /** How many windows the groups hold. */
  function WindowCount(groups: seq<Group>): nat
  {
    if groups == [] then 0 else WindowCount(groups[..|groups| - 1]) + |groups[|groups| - 1].1|
  }

  /** The output for groups visited in this order, ids starting at 1. */
  function OutputRows(groups: seq<Group>): seq<seq<TargetRow>>
  {
    if groups == [] then []
    else
      var init := groups[..|groups| - 1];
      var g := groups[|groups| - 1];
      OutputRows(init) + [GroupRows(g.0, g.1, 1 + WindowCount(init))]
  }

  /** The (day, windows) entries of one site, in the order its day map is visited. */
  function DayGroups(m: DayWindows, days: seq<Day>): (r: seq<Group>)
    requires DaysIn(m, days)
    ensures |r| == |days| && forall i :: 0 <= i < |days| ==> r[i] == (days[i], m[days[i]])
  {
    seq(|days|, i requires 0 <= i < |days| => (days[i], m[days[i]]))
  }

  /** Every listed day is a key of m. */
  predicate DaysIn(m: DayWindows, order: seq<Day>)
  {
    forall i :: 0 <= i < |order| ==> order[i] in m
  }

  /** `order` lists every key of m exactly once. */
  ghost predicate ListsOnce<K(!new), V>(order: seq<K>, m: map<K, V>)
  {
    (forall x :: x in order <==> x in m) &&
    (forall i, j :: 0 <= i < j < |order| ==> order[i] != order[j])
  }

  /** Visiting orders that list every key of the nested map exactly once. */
  ghost predicate Visits(data: map<Location, DayWindows>, sites: seq<Location>, days: map<Location, seq<Day>>)
  {
    ListsOnce(sites, data) &&
    forall l :: l in data ==> l in days && ListsOnce(days[l], data[l])
  }

  /** The groups in the order the loops meet them. */
  function Flatten(data: map<Location, DayWindows>, sites: seq<Location>, days: map<Location, seq<Day>>): seq<Group>
    requires forall l :: l in sites ==> l in data && l in days && DaysIn(data[l], days[l])
  {
    if sites == [] then []
    else
      var l := sites[|sites| - 1];
      Flatten(data, sites[..|sites| - 1], days) + DayGroups(data[l], days[l])
  }

  /** The rows of one (site, day) entry and the next free window id (the innermost loop). */
  method DateRows(date: Day, windows: seq<Window>, first: int) returns (dateRows: seq<TargetRow>, next: int)
    ensures dateRows == GroupRows(date, windows, first)
    ensures next == first + |windows|
  {
    var windowId := first;
    dateRows := [];
    for k := 0 to |windows|
      invariant dateRows == GroupRows(date, windows[..k], first)
      invariant windowId == first + k
    {
      assert windows[..k + 1][..k] == windows[..k];
      var windowRows := WindowRows(windowId, date, windows[k]);
      windowId := windowId + 1;
      dateRows := dateRows + windowRows;
    }
    assert windows[..|windows|] == windows;
    next := windowId;
  }

  lemma OutputSnoc(groups: seq<Group>, g: Group)
    ensures OutputRows(groups + [g]) == OutputRows(groups) + [GroupRows(g.0, g.1, 1 + WindowCount(groups))]
    ensures WindowCount(groups + [g]) == WindowCount(groups) + |g.1|
  {
    assert (groups + [g])[..|groups|] == groups;
  }

  lemma DayGroupsSnoc(m: DayWindows, order: seq<Day>, j: nat)
    requires DaysIn(m, order) && j < |order|
    ensures DaysIn(m, order[..j]) && DaysIn(m, order[..j + 1])
    ensures DayGroups(m, order[..j + 1]) == DayGroups(m, order[..j]) + [(order[j], m[order[j]])]
  {
  }

  /** The day loop of one site: appends its entries' rows after those of the earlier groups. */
  method SiteRows(dateMap: DayWindows, order: seq<Day>, ghost before: seq<Group>, prior: seq<seq<TargetRow>>, first: int)
    returns (result: seq<seq<TargetRow>>, next: int)
    requires DaysIn(dateMap, order)
    requires prior == OutputRows(before) && first == 1 + WindowCount(before)
    ensures result == OutputRows(before + DayGroups(dateMap, order))
    ensures next == 1 + WindowCount(before + DayGroups(dateMap, order))
  {
    result, next := prior, first;
    ghost var done := before;
    assert before + DayGroups(dateMap, order[..0]) == before;
    for j := 0 to |order|
      invariant done == before + DayGroups(dateMap, order[..j])
      invariant result == OutputRows(done)
      invariant next == 1 + WindowCount(done)
    {
      var date := order[j];
      var windows := dateMap[date];
      var dateRows;
      dateRows, next := DateRows(date, windows, next);
      result := result + [dateRows];
      OutputSnoc(done, (date, windows));
      DayGroupsSnoc(dateMap, order, j);
      done := done + [(date, windows)];
    }
    assert order[..|order|] == order;
  }

  /**
   * restructure_data_to_output, visiting the sites in `sites` and the days of site l in
   * `days[l]` (the maps' iteration orders, which the Rust maps do not fix).
   */
  method RestructureDataToOutput(data: map<Location, DayWindows>, sites: seq<Location>, days: map<Location, seq<Day>>)
    returns (result: seq<seq<TargetRow>>)
    requires Visits(data, sites, days)
    ensures result == OutputRows(Flatten(data, sites, days))
  {
    var windowId := 1;
    result := [];
    for i := 0 to |sites|
      invariant result == OutputRows(Flatten(data, sites[..i], days))
      invariant windowId == 1 + WindowCount(Flatten(data, sites[..i], days))
    {
      var l := sites[i];
      assert l in data;
      var order := days[l];
      assert DaysIn(data[l], order) by {
        forall q | 0 <= q < |order| ensures order[q] in data[l] {
          assert order[q] in order;
        }
      }
      assert sites[..i + 1][..i] == sites[..i];
      ghost var before := Flatten(data, sites[..i], days);
      result, windowId := SiteRows(data[l], order, before, result, windowId);
      assert Flatten(data, sites[..i + 1], days) == before + DayGroups(data[l], order);
    }
    assert sites[..|sites|] == sites;
  }

  // ---------------------------------------------------------------------------
  // Shape of the output.

  lemma {:induction false} GroupRowsLength(date: Day, windows: seq<Window>, first: int, w: nat)
    requires forall i :: 0 <= i < |windows| ==> |windows[i]| == w
    ensures |GroupRows(date, windows, first)| == |windows| * w
  {
    if windows != [] {
      var n := |windows| - 1;
      GroupRowsLength(date, windows[..n], first, w);
      assert (n + 1) * w == n * w + w;
    }
  }

  lemma RowIndexBound(j: nat, n: nat, w: nat, k: nat)
    requires j < n && k < w
    ensures j * w + k < n * w
  {
    Arith.MulMonotone(j + 1, n, w);
    assert (j + 1) * w == j * w + w;
  }

  lemma {:induction false} GroupRowsAt(date: Day, windows: seq<Window>, first: int, w: nat, j: nat, k: nat)
    requires forall i :: 0 <= i < |windows| ==> |windows[i]| == w
    requires j < |windows| && k < w
    ensures |GroupRows(date, windows, first)| == |windows| * w
    ensures j * w + k < |windows| * w
    ensures GroupRows(date, windows, first)[j * w + k] == Row(first + j, date, windows[j][k])
  {
    var n := |windows| - 1;
    var init := windows[..n];
    GroupRowsLength(date, windows, first, w);
    GroupRowsLength(date, init, first, w);
    var prefix := GroupRows(date, init, first);
    assert GroupRows(date, windows, first) == prefix + WindowRows(first + n, date, windows[n]);
    RowIndexBound(j, n + 1, w, k);
    if j < n {
      GroupRowsAt(date, init, first, w, j, k);
      assert init[j] == windows[j];
    } else {
      assert j * w + k - |prefix| == k;
    }
  }

  /** One row list per group. */
  lemma {:induction false} OutputCount(groups: seq<Group>)
    ensures |OutputRows(groups)| == |groups|
  {
    if groups != [] {
      OutputCount(groups[..|groups| - 1]);
    }
  }

  /** Group g's rows are its windows' rows, numbered on from the windows of the earlier groups. */
  lemma {:induction false} OutputGroup(groups: seq<Group>, g: nat)
    requires g < |groups|
    ensures |OutputRows(groups)| == |groups|
    ensures OutputRows(groups)[g] == GroupRows(groups[g].0, groups[g].1, 1 + WindowCount(groups[..g]))
  {
    var init := groups[..|groups| - 1];
    OutputCount(init);
    if g < |init| {
      OutputGroup(init, g);
      assert init[..g] == groups[..g];
    } else {
      assert init == groups[..g];
    }
  }

  /**
   * When every window has w records, group g holds (windows of g) * w rows, and record k of its
   * window j becomes a row whose id is 1 + (windows of the earlier groups) + j: ids start at 1,
   * grow by one per window across all groups, and are shared by the rows of a window.
   */
  lemma OutputAt(groups: seq<Group>, w: nat, g: nat, j: nat, k: nat)
    requires forall h, i :: 0 <= h < |groups| && 0 <= i < |groups[h].1| ==> |groups[h].1[i]| == w
    requires g < |groups| && j < |groups[g].1| && k < w
    ensures |OutputRows(groups)| == |groups|
    ensures |OutputRows(groups)[g]| == |groups[g].1| * w
    ensures j * w + k < |groups[g].1| * w
    ensures OutputRows(groups)[g][j * w + k] == Row(1 + WindowCount(groups[..g]) + j, groups[g].0, groups[g].1[j][k])
  {
    OutputGroup(groups, g);
    var first := 1 + WindowCount(groups[..g]);
    var date, windows := groups[g].0, groups[g].1;
    forall i | 0 <= i < |windows| ensures |windows[i]| == w {
    }
    GroupRowsAt(date, windows, first, w, j, k);
  }
}
