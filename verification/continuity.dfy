/**
 * The continuity filter of one site's records: sort by time (get_sorted_data_for_location),
 * group by calendar day (aggregate_by_date), list the missing-minute intervals of each day
 * between 04:00 and 16:00 (find_gaps), and drop every day with an interval longer than two
 * minutes (filter_days_by_gaps).
 */
module Continuity {
  import opened Time
  import opened Entities
  import opened Join
  import Sets

  type Records = seq<MergedRecord>
  type Days = map<Day, Records>

  // ---------------------------------------------------------------------------
  // Sorting by time (the library's unstable sort, specified by its result).

  predicate SortedByTime(s: Records)
  {
    forall i, j :: 0 <= i < j < |s| ==> s[i].time <= s[j].time
  }

  /** Insertion of x before the first record of s that is not earlier than it. */
  function Insert(x: MergedRecord, s: Records): (r: Records)
    ensures |r| == |s| + 1 && (r[0] == x || (s != [] && r[0] == s[0]))
  {
    if s == [] || x.time <= s[0].time then [x] + s
    else [s[0]] + Insert(x, s[1..])
  }

  /** A record no later than the first of a sorted list can go in front of it. */
  lemma SortedCons(x: MergedRecord, s: Records)
    requires SortedByTime(s) && (s == [] || x.time <= s[0].time)
    ensures SortedByTime([x] + s)
  {
    var r := [x] + s;
    forall i, j | 0 <= i < j < |r| ensures r[i].time <= r[j].time {
      assert r[j] == s[j - 1];
      if i > 0 {
        assert r[i] == s[i - 1];
      } else if j > 1 {
        assert s[0].time <= s[j - 1].time;
      }
    }
  }

  lemma SortedTail(s: Records)
    requires SortedByTime(s) && s != []
    ensures SortedByTime(s[1..])
  {
    forall i, j | 0 <= i < j < |s| - 1 ensures s[1..][i].time <= s[1..][j].time {
      assert s[1..][i] == s[i + 1] && s[1..][j] == s[j + 1];
    }
  }

  lemma {:induction false} InsertSorted(x: MergedRecord, s: Records)
    requires SortedByTime(s)
    ensures SortedByTime(Insert(x, s))
    ensures multiset(Insert(x, s)) == multiset(s) + multiset{x}
  {
    if s == [] || x.time <= s[0].time {
      SortedCons(x, s);
    } else {
      SortedTail(s);
      InsertSorted(x, s[1..]);
      var rest := Insert(x, s[1..]);
      assert s == [s[0]] + s[1..];
      assert multiset([s[0]] + rest) == multiset{s[0]} + multiset(rest);
      SortedCons(s[0], rest);
    }
  }

  /** get_sorted_data_for_location: the records of a site in time order. */
  function SortByTime(s: Records): (r: Records)
    ensures SortedByTime(r)
    ensures multiset(r) == multiset(s)
  {
    if s == [] then []
    else
      assert s == [s[0]] + s[1..];
      InsertSorted(s[0], SortByTime(s[1..]));
      Insert(s[0], SortByTime(s[1..]))
  }

  /**
   * When no two records share a minute, there is only one time-ordered arrangement of them, so
   * the order the unstable sort leaves equal keys in cannot matter.
   */
  lemma {:induction false} SortedUnique(a: Records, b: Records)
    requires SortedByTime(a) && SortedByTime(b) && multiset(a) == multiset(b)
    requires TimesDistinct(a)
    ensures a == b
  {
    if a != [] {
      SameFirst(a, b);
      SameTail(a, b);
      SortedTail(a);
      SortedTail(b);
      DistinctTail(a);
      SortedUnique(a[1..], b[1..]);
      assert a == [a[0]] + a[1..] && b == [b[0]] + b[1..];
    }
  }

  /** Equal multisets with the same first element have equal rests. */
  lemma SameTail(a: Records, b: Records)
    requires a != [] && b != [] && a[0] == b[0] && multiset(a) == multiset(b)
    ensures multiset(a[1..]) == multiset(b[1..])
  {
    assert a == [a[0]] + a[1..] && b == [b[0]] + b[1..];
    assert multiset(a) == multiset{a[0]} + multiset(a[1..]);
    assert multiset(b) == multiset{a[0]} + multiset(b[1..]);
    forall y ensures multiset(a[1..])[y] == multiset(b[1..])[y] {
      assert multiset(a)[y] == multiset(b)[y];
    }
  }

  lemma DistinctTail(a: Records)
    requires a != [] && TimesDistinct(a)
    ensures TimesDistinct(a[1..])
  {
    forall i, j | 0 <= i < j < |a| - 1 ensures a[1..][i].time != a[1..][j].time {
      assert a[1..][i] == a[i + 1] && a[1..][j] == a[j + 1];
    }
  }

  lemma SameFirst(a: Records, b: Records)
    requires a != [] && SortedByTime(a) && SortedByTime(b) && multiset(a) == multiset(b)
    requires TimesDistinct(a)
    ensures b != [] && a[0] == b[0]
  {
    assert a[0] in multiset(b);
    var k :| 0 <= k < |b| && b[k] == a[0];
    assert b[0] in multiset(a);
    var m :| 0 <= m < |a| && a[m] == b[0];
    assert a[m].time <= a[0].time;
  }

  // ---------------------------------------------------------------------------
  // Grouping by calendar day.

  /** The records of day d, in their order. */
  function OnDay(s: Records, d: Day): Records
  {
    if s == [] then []
    else OnDay(s[..|s| - 1], d) + (if DayOf(s[|s| - 1].time) == d then [s[|s| - 1]] else [])
  }

  /** The days that have records. */
  ghost predicate HasDay(s: Records, d: Day)
  {
    exists i :: 0 <= i < |s| && DayOf(s[i].time) == d
  }

  /** aggregate_by_date: one entry per day with records, holding that day's records in order. */
  method AggregateByDate(data: Records) returns (g: Days)
    ensures forall d :: d in g <==> HasDay(data, d)
    ensures forall d :: d in g ==> g[d] == OnDay(data, d)
  {
    g := map[];
    for i := 0 to |data|
      invariant GroupsOf(g, data[..i])
    {
      var x := data[i];
      var d := DayOf(x.time);
      assert data[..i + 1] == data[..i] + [x];
      GroupSnoc(g, data[..i], x);
      g := g[d := (if d in g then g[d] else []) + [x]];
    }
    assert data[..|data|] == data;
  }

  /** g groups the records of s by day. */
  ghost predicate GroupsOf(g: Days, s: Records)
  {
    (forall d :: d in g <==> HasDay(s, d)) && (forall d :: d in g ==> g[d] == OnDay(s, d))
  }

  /** Appending a record to its day's group keeps the grouping. */
  lemma GroupSnoc(g: Days, s: Records, x: MergedRecord)
    requires GroupsOf(g, s)
    ensures var d := DayOf(x.time);
      GroupsOf(g[d := (if d in g then g[d] else []) + [x]], s + [x])
  {
    var d := DayOf(x.time);
    var g' := g[d := (if d in g then g[d] else []) + [x]];
    var s' := s + [x];
    assert s'[..|s|] == s && s'[|s|] == x;
    forall e ensures e in g' <==> HasDay(s', e) {
      if HasDay(s', e) && e != d {
        var j :| 0 <= j < |s'| && DayOf(s'[j].time) == e;
        assert j < |s| && s'[j] == s[j];
      }
      if e in g' && e != d {
        var j :| 0 <= j < |s| && DayOf(s[j].time) == e;
        assert s[j] == s'[j];
      }
    }
    forall e | e in g' ensures g'[e] == OnDay(s', e) {
      if e == d && !HasDay(s, d) {
        OnDayAbsent(s, d);
      }
    }
  }

  lemma {:induction false} OnDayAbsent(s: Records, d: Day)
    requires !HasDay(s, d)
    ensures OnDay(s, d) == []
  {
    if s != [] {
      var init := s[..|s| - 1];
      forall j | 0 <= j < |init| ensures DayOf(init[j].time) != d {
        assert init[j] == s[j];
      }
      OnDayAbsent(init, d);
    }
  }

  /** A day's group is a time-ordered list of records of that day when the input is. */
  lemma {:induction false} OnDaySorted(s: Records, d: Day)
    requires SortedByTime(s)
    ensures SortedByTime(OnDay(s, d))
    ensures forall k :: 0 <= k < |OnDay(s, d)| ==> DayOf(OnDay(s, d)[k].time) == d && OnDay(s, d)[k] in s
  {
    if s != [] {
      var init := s[..|s| - 1];
      var x := s[|s| - 1];
      OnDaySorted(init, d);
      var g := OnDay(init, d);
      forall k | 0 <= k < |g| ensures g[k].time <= x.time {
        var j :| 0 <= j < |init| && init[j] == g[k];
        assert init[j] == s[j];
      }
    }
  }

  /** Distinct minutes stay distinct within a day's group. */
  lemma {:induction false} OnDayDistinct(s: Records, d: Day)
    requires TimesDistinct(s)
    ensures TimesDistinct(OnDay(s, d))
  {
    if s != [] {
      var init := s[..|s| - 1];
      var x := s[|s| - 1];
      assert TimesDistinct(init) by {
        forall i, j | 0 <= i < j < |init| ensures init[i].time != init[j].time {
          assert init[i] == s[i] && init[j] == s[j];
        }
      }
      OnDayDistinct(init, d);
      OnDayIn(init, d);
      var g := OnDay(init, d);
      forall k | 0 <= k < |g| ensures g[k].time != x.time {
        var j :| 0 <= j < |init| && init[j] == g[k];
        assert init[j] == s[j];
      }
    }
  }

  lemma {:induction false} OnDayIn(s: Records, d: Day)
    ensures forall k :: 0 <= k < |OnDay(s, d)| ==> OnDay(s, d)[k] in s
  {
    if s != [] {
      OnDayIn(s[..|s| - 1], d);
    }
  }

  // ---------------------------------------------------------------------------
  // Gaps.

  /** 04:00 and 16:00 as minutes of the day. */
  const DayStart := Clock(4, 0)
  const DayEnd := Clock(16, 0)

  type Gap = (int, int)

  /** The minute of the day one minute after m; a clock time wraps at midnight. */
  function NextMinute(m: int): int
  {
    (m + 1) % MinutesPerDay
  }

  /** The gaps the scan records from `last` over the remaining minutes, then the trailing one. */
  function GapsFrom(last: int, times: seq<int>): seq<Gap>
    decreases |times|
  {
    if times == [] then
      if last < DayEnd then [(last, DayEnd)] else []
    else
      (if times[0] > NextMinute(last) then [(last, times[0])] else []) + GapsFrom(times[0], times[1..])
  }

  /** The minutes of the day of the records, in order. */
  function MinutesOf(s: Records): (r: seq<int>)
    ensures |r| == |s|
    ensures forall i :: 0 <= i < |s| ==> r[i] == MinuteOfDay(s[i].time) && 0 <= r[i] < MinutesPerDay
  {
    seq(|s|, i requires 0 <= i < |s| => MinuteOfDay(s[i].time))
  }

  /** The gaps find_gaps lists for one day. */
  function DayGaps(s: Records): seq<Gap>
  {
    GapsFrom(DayStart, MinutesOf(s))
  }

  /** The gap check at position i, then the rest. */
  lemma GapsFromStep(last: int, times: seq<int>, i: nat)
    requires i < |times|
    ensures GapsFrom(last, times[i..]) ==
      (if times[i] > NextMinute(last) then [(last, times[i])] else []) + GapsFrom(times[i], times[i + 1..])
  {
    assert times[i..][0] == times[i] && times[i..][1..] == times[i + 1..];
  }

  /** The gaps found before position i followed by the rest of the scan make up the whole. */
  ghost predicate ScannedTo(gaps: seq<Gap>, last: int, times: seq<int>, i: nat, total: seq<Gap>)
    requires i <= |times|
  {
    gaps + GapsFrom(last, times[i..]) == total
  }

  /** One step of the scan keeps ScannedTo. */
  lemma ScanStep(gaps: seq<Gap>, last: int, times: seq<int>, i: nat, total: seq<Gap>)
    requires i < |times| && ScannedTo(gaps, last, times, i, total)
    ensures times[i] > NextMinute(last) ==> ScannedTo(gaps + [(last, times[i])], times[i], times, i + 1, total)
    ensures times[i] <= NextMinute(last) ==> ScannedTo(gaps, times[i], times, i + 1, total)
  {
    GapsFromStep(last, times, i);
    if times[i] > NextMinute(last) {
      assert (gaps + [(last, times[i])]) + GapsFrom(times[i], times[i + 1..])
        == gaps + ([(last, times[i])] + GapsFrom(times[i], times[i + 1..]));
    } else {
      assert [] + GapsFrom(times[i], times[i + 1..]) == GapsFrom(times[i], times[i + 1..]);
    }
  }

  /** The scan of one day, starting from 04:00. */
  method GapsOfDay(tuples: Records) returns (gaps: seq<Gap>)
    ensures gaps == DayGaps(tuples)
  {
    var times := MinutesOf(tuples);
    var last := DayStart;
    gaps := [];
    for i := 0 to |tuples|
      invariant ScannedTo(gaps, last, times, i, DayGaps(tuples))
    {
      var time := MinuteOfDay(tuples[i].time);
      var expected := NextMinute(last);
      assert time == times[i];
      ScanStep(gaps, last, times, i, DayGaps(tuples));
      if time > expected {
        gaps := gaps + [(last, time)];
      }
      last := time;
    }
    assert times[|tuples|..] == [];
    if last < DayEnd {
      gaps := gaps + [(last, DayEnd)];
    }
  }

  /** find_gaps: the days with at least one gap, each with its gaps. */
  method FindGaps(data: Days) returns (gaps: map<Day, seq<Gap>>)
    ensures forall d :: d in gaps <==> d in data && DayGaps(data[d]) != []
    ensures forall d :: d in gaps ==> gaps[d] == DayGaps(data[d])
  {
    gaps := map[];
    var todo := data.Keys;
    while todo != {}
      invariant todo <= data.Keys
      invariant forall d :: d in gaps <==> d in data - todo && DayGaps(data[d]) != []
      invariant forall d :: d in gaps ==> gaps[d] == DayGaps(data[d])
      decreases todo
    {
      ghost var some := Sets.Member(todo);
      var d :| d in todo;
      var dayGaps := GapsOfDay(data[d]);
      if dayGaps != [] {
        gaps := gaps[d := dayGaps];
      }
      todo := todo - {d};
    }
  }

  /** How many gaps are longer than two minutes. */
  function BigGaps(gs: seq<Gap>): nat
  {
    if gs == [] then 0
    else (if gs[0].1 - gs[0].0 > 2 then 1 else 0) + BigGaps(gs[1..])
  }

  /** A day survives when none of its gaps is longer than two minutes. */
  predicate Retained(s: Records)
  {
    BigGaps(DayGaps(s)) == 0
  }

  /** filter_days_by_gaps: the days without a long gap, each with its records untouched. */
  method FilterDaysByGaps(days: Days) returns (kept: Days)
    ensures forall d :: d in kept <==> d in days && Retained(days[d])
    ensures forall d :: d in kept ==> kept[d] == days[d]
  {
    var gaps := FindGaps(days);
    kept := days;
    var todo := gaps.Keys;
    while todo != {}
      invariant todo <= gaps.Keys
      invariant forall d :: d in kept <==> d in days && !(d in gaps.Keys - todo && BigGaps(gaps[d]) > 0)
      invariant forall d :: d in kept ==> kept[d] == days[d]
      decreases todo
    {
      ghost var some := Sets.Member(todo);
      var d :| d in todo;
      if BigGaps(gaps[d]) > 0 {
        kept := kept - {d};
      }
      todo := todo - {d};
    }
    forall d | d in days && d !in gaps ensures Retained(days[d]) {
      assert DayGaps(days[d]) == [];
    }
  }

  // ---------------------------------------------------------------------------
  // What a retained day looks like.

  /** Each minute in xs is at most two after the one before it, starting from `last`. */
  predicate SmallSteps(last: int, xs: seq<int>)
    decreases |xs|
  {
    xs == [] || (xs[0] - last <= 2 && SmallSteps(xs[0], xs[1..]))
  }

  /**
   * No recorded gap is long exactly when every step from 04:00 through the day's minutes to
   * 16:00 is at most two minutes.
   */
  lemma {:induction false} NoBigGapIff(last: int, times: seq<int>)
    requires 0 <= last < MinutesPerDay
    requires forall i :: 0 <= i < |times| ==> 0 <= times[i] < MinutesPerDay
    ensures BigGaps(GapsFrom(last, times)) == 0 <==> SmallSteps(last, times + [DayEnd])
    decreases |times|
  {
    if times == [] {
      assert SmallSteps(DayEnd, []);
    } else {
      var rest := GapsFrom(times[0], times[1..]);
      var head := if times[0] > NextMinute(last) then [(last, times[0])] else [];
      BigGapsAppend(head, rest);
      NoBigGapIff(times[0], times[1..]);
      assert (times + [DayEnd])[1..] == times[1..] + [DayEnd];
    }
  }

  lemma {:induction false} BigGapsAppend(a: seq<Gap>, b: seq<Gap>)
    ensures BigGaps(a + b) == BigGaps(a) + BigGaps(b)
  {
    if a == [] {
      assert a + b == b;
    } else {
      assert (a + b)[0] == a[0] && (a + b)[1..] == a[1..] + b;
      BigGapsAppend(a[1..], b);
      assert BigGaps(a + b) == (if a[0].1 - a[0].0 > 2 then 1 else 0) + BigGaps(a[1..] + b);
    }
  }

  lemma {:induction false} SmallStepsReach(last: int, xs: seq<int>)
    requires xs != [] && SmallSteps(last, xs)
    ensures xs[|xs| - 1] <= last + 2 * |xs|
    decreases |xs|
  {
    if |xs| > 1 {
      SmallStepsReach(xs[0], xs[1..]);
    }
  }

  /** The scan of a retained day tells which days survive: no long gap anywhere in 04:00-16:00. */
  lemma RetainedIff(s: Records)
    ensures Retained(s) <==> SmallSteps(DayStart, MinutesOf(s) + [DayEnd])
  {
    NoBigGapIff(DayStart, MinutesOf(s));
  }

  /**
   * A retained day has at least 359 records: steps of at most two minutes must cover the 720
   * minutes from 04:00 to 16:00.
   */
  lemma RetainedDayLength(s: Records)
    requires Retained(s)
    ensures |s| >= 359
  {
    RetainedIff(s);
    SmallStepsReach(DayStart, MinutesOf(s) + [DayEnd]);
  }
}
