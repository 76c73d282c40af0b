/**
 * Sliding windows over each retained day (generate_windows) and the per-site pipeline that
 * feeds them (structure_data): sort, group by day, drop days with long gaps, cut windows.
 */
module Windows {
  import opened Time
  import opened Entities
  import opened Join
  import opened Continuity
  import Sets

  /** Records per window (WINDOW_SIZE). */
  const WindowSize := 180

  type Window = seq<MergedRecord>
  type DayWindows = map<Day, seq<Window>>

  /**
   * Stride-1 windows of w records, one starting at each record that leaves more than w records
   * from its start on: the window that would end exactly at the last record is not produced.
   */
  function SlidingWindows(tuples: Records, w: nat): seq<Window>
    decreases |tuples|
  {
    if |tuples| <= w then [] else [tuples[..w]] + SlidingWindows(tuples[1..], w)
  }

  /** There are N - w windows and window i is records i .. i + w - 1. */
  lemma {:induction false} SlidingWindowsAt(tuples: Records, w: nat)
    requires |tuples| >= w
    ensures |SlidingWindows(tuples, w)| == |tuples| - w
    ensures forall i :: 0 <= i < |tuples| - w ==> SlidingWindows(tuples, w)[i] == tuples[i..i + w]
    decreases |tuples|
  {
    if |tuples| > w {
      var rest := tuples[1..];
      SlidingWindowsAt(rest, w);
      assert SlidingWindows(tuples, w) == [tuples[..w]] + SlidingWindows(rest, w);
      forall i | 1 <= i < |tuples| - w
        ensures SlidingWindows(tuples, w)[i] == tuples[i..i + w]
      {
        assert SlidingWindows(tuples, w)[i] == SlidingWindows(rest, w)[i - 1];
        assert rest[i - 1..i - 1 + w] == tuples[i..i + w];
      }
    }
  }

  /** The inner loop of generate_windows for one day. */
  method WindowsOfDay(tuples: Records, w: nat) returns (windows: seq<Window>)
    requires |tuples| >= w
    ensures windows == SlidingWindows(tuples, w)
  {
    SlidingWindowsAt(tuples, w);
    windows := [];
    for i := 0 to |tuples| - w
      invariant windows == SlidingWindows(tuples, w)[..i]
    {
      windows := windows + [tuples[i..i + w]];
    }
  }

  /**
   * generate_windows. A day shorter than w would underflow the unsigned `len - w`, so every
   * day must hold at least w records.
   */
  method GenerateWindows(data: Days, w: nat) returns (windowed: DayWindows)
    requires forall d :: d in data ==> |data[d]| >= w
    ensures windowed.Keys == data.Keys
    ensures forall d :: d in data ==> windowed[d] == SlidingWindows(data[d], w)
  {
    windowed := map[];
    var todo := data.Keys;
    while todo != {}
      invariant todo <= data.Keys
      invariant windowed.Keys == data.Keys - todo
      invariant forall d :: d in windowed ==> windowed[d] == SlidingWindows(data[d], w)
      decreases todo
    {
      ghost var some := Sets.Member(todo);
      var d :| d in todo;
      var windows := WindowsOfDay(data[d], w);
      windowed := windowed[d := windows];
      todo := todo - {d};
    }
  }

  // ---------------------------------------------------------------------------
  // structure_data.

  /** The days of a record list and their records (the result of aggregate_by_date). */
  function Grouped(s: Records): Days
  {
    map d | d in (set i | 0 <= i < |s| :: DayOf(s[i].time)) :: OnDay(s, d)
  }

  /** The days without a long gap (the result of filter_days_by_gaps). */
  function KeptDays(days: Days): Days
  {
    map d | d in days && Retained(days[d]) :: days[d]
  }

  lemma GroupedIs(days: Days, s: Records)
    requires forall d :: d in days <==> HasDay(s, d)
    requires forall d :: d in days ==> days[d] == OnDay(s, d)
    ensures days == Grouped(s)
  {
    var g := Grouped(s);
    forall d ensures d in days <==> d in g {
      if HasDay(s, d) {
        var i :| 0 <= i < |s| && DayOf(s[i].time) == d;
        assert d in set i | 0 <= i < |s| :: DayOf(s[i].time);
      }
    }
  }

  lemma KeptIs(kept: Days, days: Days)
    requires forall d :: d in kept <==> d in days && Retained(days[d])
    requires forall d :: d in kept ==> kept[d] == days[d]
    ensures kept == KeptDays(days)
  {
    var k := KeptDays(days);
    forall d ensures d in kept <==> d in k {
      if d in days && Retained(days[d]) {
        assert d in k;
      }
    }
    forall d | d in kept ensures kept[d] == k[d] {
    }
  }

  /** Every retained day is long enough for a window. */
  lemma RetainedLongEnough(days: Days)
    requires forall d :: d in days ==> Retained(days[d])
    ensures forall d :: d in days ==> |days[d]| >= WindowSize
  {
    forall d | d in days ensures |days[d]| >= WindowSize {
      RetainedDayLength(days[d]);
    }
  }

  /** The windows of one site's records, by day. */
  function Structure(s: Records): DayWindows
  {
    var kept := KeptDays(Grouped(SortByTime(s)));
    RetainedLongEnough(kept);
    map d | d in kept :: SlidingWindows(kept[d], WindowSize)
  }

  /** The body of structure_data for one site. */
  method StructureSite(s: Records) returns (windows: DayWindows)
    ensures windows == Structure(s)
  {
    var sorted := SortByTime(s);
    var days := AggregateByDate(sorted);
    GroupedIs(days, sorted);
    var kept := FilterDaysByGaps(days);
    KeptIs(kept, days);
    RetainedLongEnough(kept);
    windows := GenerateWindows(kept, WindowSize);
  }

  /**
   * structure_data. Inside the pipeline generate_windows never underflows: a day that survives
   * the gap filter already has at least 359 records.
   */
  method StructureData(merged: Merged) returns (data: map<Location, DayWindows>)
    ensures data.Keys == merged.Keys
    ensures forall l :: l in merged ==> data[l] == Structure(merged[l])
  {
    data := map[];
    var todo := merged.Keys;
    while todo != {}
      invariant todo <= merged.Keys
      invariant data.Keys == merged.Keys - todo
      invariant forall l :: l in data ==> data[l] == Structure(merged[l])
      decreases todo
    {
      ghost var some := Sets.Member(todo);
      var l :| l in todo;
      var windows := StructureSite(merged[l]);
      data := data[l := windows];
      todo := todo - {l};
    }
  }

  /** A day of the pipeline's output is a retained day of the sorted records, cut into windows. */
  lemma StructureDay(s: Records, d: Day)
    requires d in Structure(s)
    ensures Retained(OnDay(SortByTime(s), d))
    ensures Structure(s)[d] == SlidingWindows(OnDay(SortByTime(s), d), WindowSize)
  {
  }

  /** A window of a time-ordered day is a time-ordered run of WindowSize records of that day. */
  lemma WindowOfDay(day: Records, d: Day, i: nat)
    requires i < |SlidingWindows(day, WindowSize)|
    requires SortedByTime(day) && forall k :: 0 <= k < |day| ==> DayOf(day[k].time) == d
    ensures var win := SlidingWindows(day, WindowSize)[i];
      |win| == WindowSize && SortedByTime(win) &&
      forall k :: 0 <= k < |win| ==> DayOf(win[k].time) == d && win[k] in day
  {
    SlidingWindowsAt(day, WindowSize);
    var win := SlidingWindows(day, WindowSize)[i];
    assert win == day[i..i + WindowSize];
    forall a, b | 0 <= a < b < |win| ensures win[a].time <= win[b].time {
      assert win[a] == day[i + a] && win[b] == day[i + b];
    }
    forall k | 0 <= k < |win| ensures DayOf(win[k].time) == d && win[k] in day {
      assert win[k] == day[i + k];
    }
  }

  /**
   * Every window the pipeline produces for day d holds exactly WindowSize records of that day,
   * taken from the site's records, in time order.
   */
  lemma StructureWindows(s: Records, d: Day, i: nat)
    requires d in Structure(s) && i < |Structure(s)[d]|
    ensures var win := Structure(s)[d][i];
      |win| == WindowSize && SortedByTime(win) &&
      forall k :: 0 <= k < |win| ==> DayOf(win[k].time) == d && win[k] in s
  {
    var sorted := SortByTime(s);
    var day := OnDay(sorted, d);
    StructureDay(s, d);
    RetainedDayLength(day);
    SlidingWindowsAt(day, WindowSize);
    OnDaySorted(sorted, d);
    WindowOfDay(day, d, i);
    var win := Structure(s)[d][i];
    forall k | 0 <= k < |win| ensures win[k] in s {
      assert win[k] in day;
      assert win[k] in multiset(sorted);
    }
  }
}
