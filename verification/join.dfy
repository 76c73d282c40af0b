/**
 * The join of the three sources (merge_maps_updated) and the removal of the sites without a
 * classroom (`main`). A sensor minute contributes only when the weather table has that minute
 * and its hour lies in [4, 16); each snapshot of such a minute then becomes one record filed
 * under the snapshot's own site, with that site's first occupancy fact of the minute (or a
 * count of 0) and the minute's weather.
 */
module Join {
  import opened Wrappers
  import opened Time
  import opened Entities
  import opened Sensors
  import opened Occupancy
  import opened Weather

  /** The hours merge_maps_updated keeps: 04:00 up to, not including, 16:00. */
  const FirstHour := 4
  const EndHour := 16

  type Merged = map<Location, seq<MergedRecord>>

  predicate InHours(t: Timestamp)
  {
    FirstHour <= Hour(t) < EndHour
  }

  /** The first fact about site l (`filter(..).nth(0)`). */
  function FirstMatch(facts: seq<SensedPeople>, l: Location): (r: Option<SensedPeople>)
    ensures r.None? <==> forall i :: 0 <= i < |facts| ==> facts[i].location != l
    ensures r.Some? ==> exists i :: 0 <= i < |facts| && facts[i] == r.value && facts[i].location == l &&
                          forall j :: 0 <= j < i ==> facts[j].location != l
  {
    if facts == [] then None
    else if facts[0].location == l then
      assert facts[0].location == l;  // index 0 is the witness of the first-occurrence clause
      Some(facts[0])
    else
      var r := FirstMatch(facts[1..], l);
      if r.Some? then
        var i :| 0 <= i < |facts[1..]| && facts[1..][i] == r.value && facts[1..][i].location == l &&
                 forall j :: 0 <= j < i ==> facts[1..][j].location != l;
        assert facts[i + 1] == r.value;
        assert forall j :: 0 <= j < i + 1 ==> facts[j].location != l by {
          forall j | 0 <= j < i + 1 ensures facts[j].location != l {
            if j > 0 { assert facts[j] == facts[1..][j - 1]; }
          }
        }
        r
      else
        assert forall i :: 0 <= i < |facts| ==> facts[i].location != l by {
          forall i | 0 <= i < |facts| ensures facts[i].location != l {
            if i > 0 { assert facts[i] == facts[1..][i - 1]; }
          }
        }
        r
  }

  /** The occupancy of site l at minute t: its first fact, or a count of 0 when there is none. */
  function PeopleAt(people: OccupancyTable, t: Timestamp, l: Location): (r: SensedPeople)
    ensures r.location == l
    ensures t !in people ==> r.people == 0
    ensures t in people && FirstMatch(people[t], l).None? ==> r.people == 0
    ensures t in people && FirstMatch(people[t], l).Some? ==> r == FirstMatch(people[t], l).value
  {
    var found := if t in people then FirstMatch(people[t], l) else None;
    match found
    case Some(p) => p
    case None => SensedPeople(l, 0)
  }

  /** The record one snapshot contributes. */
  function Record(people: OccupancyTable, t: Timestamp, s: Sensor, w: WeatherPoint): MergedRecord
  {
    MergedRecord(t, s, PeopleAt(people, t, s.location), w)
  }

  /** `merged.entry(l).or_insert_with(Vec::new).push(x)`. */
  function Append(m: Merged, l: Location, x: MergedRecord): Merged
  {
    m[l := (if l in m then m[l] else []) + [x]]
  }

  /** The list filed under l, empty when l is not a key. */
  function Get(m: Merged, l: Location): seq<MergedRecord>
  {
    if l in m then m[l] else []
  }

  /** The table after the snapshots of one kept minute. */
  function MergeMinute(m: Merged, people: OccupancyTable, t: Timestamp, list: seq<Sensor>, w: WeatherPoint): Merged
  {
    if list == [] then m
    else
      var s := list[|list| - 1];
      Append(MergeMinute(m, people, t, list[..|list| - 1], w), s.location, Record(people, t, s, w))
  }

  /** Whether minute t contributes records. */
  predicate Kept(sensors: SensorTable, weather: WeatherTable, t: Timestamp)
  {
    t in sensors && t in weather && InHours(t)
  }

  /** The table after visiting the sensor minutes in the given order. */
  function MergeSpec(order: seq<Timestamp>, people: OccupancyTable, sensors: SensorTable, weather: WeatherTable): Merged
  {
    if order == [] then map[]
    else
      var m := MergeSpec(order[..|order| - 1], people, sensors, weather);
      var t := order[|order| - 1];
      if Kept(sensors, weather, t) then MergeMinute(m, people, t, sensors[t], weather[t]) else m
  }

  /** A list of the keys of a table, each once: the order a map iteration visits them in. */
  ghost predicate Enumerates<V>(order: seq<Timestamp>, m: map<Timestamp, V>)
  {
    (forall t :: t in order <==> t in m) &&
    (forall i, j :: 0 <= i < j < |order| ==> order[i] != order[j])
  }

  /**
   * merge_maps_updated, visiting the sensor minutes in `order` (the table's iteration order,
   * which the Rust map does not fix).
   */
  method MergeMapsUpdated(people: OccupancyTable, sensors: SensorTable, weather: WeatherTable, order: seq<Timestamp>)
    returns (merged: Merged)
    requires Enumerates(order, sensors)
    ensures merged == MergeSpec(order, people, sensors, weather)
  {
    merged := map[];
    for k := 0 to |order|
      invariant merged == MergeSpec(order[..k], people, sensors, weather)
    {
      assert order[..k + 1][..k] == order[..k];
      var t := order[k];
      var list := sensors[t];
      if t in weather && !(Hour(t) < FirstHour || Hour(t) >= EndHour) {
        var w := weather[t];
        ghost var before := merged;
        for j := 0 to |list|
          invariant merged == MergeMinute(before, people, t, list[..j], w)
        {
          assert list[..j + 1][..j] == list[..j];
          var s := list[j];
          var found := if t in people then FirstMatch(people[t], s.location) else None;
          var p := match found case Some(f) => f case None => SensedPeople(s.location, 0);
          var l := p.location;
          var entry := if l in merged then merged[l] else [];
          merged := merged[l := entry + [MergedRecord(t, s, p, w)]];
        }
        assert list[..|list|] == list;
      }
    }
    assert order[..|order|] == order;
  }

  // ---------------------------------------------------------------------------
  // What the table holds, site by site.

  /** The records minute t files under site l, in snapshot order. */
  function Filed(people: OccupancyTable, t: Timestamp, list: seq<Sensor>, w: WeatherPoint, l: Location): seq<MergedRecord>
  {
    if list == [] then []
    else
      var s := list[|list| - 1];
      Filed(people, t, list[..|list| - 1], w, l) + (if s.location == l then [Record(people, t, s, w)] else [])
  }

  /** The records filed under site l over the whole iteration, minute by minute. */
  function Column(order: seq<Timestamp>, people: OccupancyTable, sensors: SensorTable, weather: WeatherTable, l: Location): seq<MergedRecord>
  {
    if order == [] then []
    else
      var t := order[|order| - 1];
      Column(order[..|order| - 1], people, sensors, weather, l) +
        (if Kept(sensors, weather, t) then Filed(people, t, sensors[t], weather[t], l) else [])
  }

  lemma {:induction false} MinuteEntry(m: Merged, people: OccupancyTable, t: Timestamp, list: seq<Sensor>, w: WeatherPoint, l: Location)
    ensures l in MergeMinute(m, people, t, list, w) <==> l in m || Filed(people, t, list, w, l) != []
    ensures Get(MergeMinute(m, people, t, list, w), l) == Get(m, l) + Filed(people, t, list, w, l)
  {
    if list != [] {
      MinuteEntry(m, people, t, list[..|list| - 1], w, l);
    }
  }

  /** The list under each site is the concatenation, minute by minute, of that site's records. */
  lemma {:induction false} MergeColumn(order: seq<Timestamp>, people: OccupancyTable, sensors: SensorTable, weather: WeatherTable, l: Location)
    ensures l in MergeSpec(order, people, sensors, weather) <==> Column(order, people, sensors, weather, l) != []
    ensures Get(MergeSpec(order, people, sensors, weather), l) == Column(order, people, sensors, weather, l)
  {
    if order != [] {
      var init := order[..|order| - 1];
      var t := order[|order| - 1];
      MergeColumn(init, people, sensors, weather, l);
      if Kept(sensors, weather, t) {
        MinuteEntry(MergeSpec(init, people, sensors, weather), people, t, sensors[t], weather[t], l);
      }
    }
  }

  lemma {:induction false} FiledSound(people: OccupancyTable, t: Timestamp, list: seq<Sensor>, w: WeatherPoint, l: Location, i: nat)
    requires i < |Filed(people, t, list, w, l)|
    ensures var r := Filed(people, t, list, w, l)[i];
      r.sensor in list && r.sensor.location == l && r == Record(people, t, r.sensor, w)
  {
    var init := list[..|list| - 1];
    if i < |Filed(people, t, init, w, l)| {
      FiledSound(people, t, init, w, l, i);
    }
  }

  lemma {:induction false} FiledComplete(people: OccupancyTable, t: Timestamp, list: seq<Sensor>, w: WeatherPoint, k: nat)
    requires k < |list|
    ensures Record(people, t, list[k], w) in Filed(people, t, list, w, list[k].location)
  {
    var init := list[..|list| - 1];
    if k < |list| - 1 {
      assert init[k] == list[k];
      FiledComplete(people, t, init, w, k);
    }
  }

  /** With one snapshot per site, a minute files at most one record under a site. */
  lemma {:induction false} FiledAtMostOne(people: OccupancyTable, t: Timestamp, list: seq<Sensor>, w: WeatherPoint, l: Location)
    requires UniqueLocations(list)
    ensures |Filed(people, t, list, w, l)| <= 1
  {
    if list != [] {
      var init := list[..|list| - 1];
      assert UniqueLocations(init);
      FiledAtMostOne(people, t, init, w, l);
      if list[|list| - 1].location == l {
        forall k | 0 <= k < |init| ensures init[k].location != l {
          assert init[k] == list[k];
        }
        FiledNone(people, t, init, w, l);
      }
    }
  }

  lemma {:induction false} FiledNone(people: OccupancyTable, t: Timestamp, list: seq<Sensor>, w: WeatherPoint, l: Location)
    requires forall k :: 0 <= k < |list| ==> list[k].location != l
    ensures Filed(people, t, list, w, l) == []
  {
    if list != [] {
      FiledNone(people, t, list[..|list| - 1], w, l);
    }
  }

  /**
   * Every record under site l comes from a kept minute (weather present, hour in [4, 16)),
   * is a snapshot of site l taken in that minute, and carries the site's occupancy and the
   * minute's weather.
   */
  lemma {:induction false} ColumnSound(order: seq<Timestamp>, people: OccupancyTable, sensors: SensorTable, weather: WeatherTable, l: Location, i: nat)
    requires i < |Column(order, people, sensors, weather, l)|
    ensures var r := Column(order, people, sensors, weather, l)[i];
      r.time in order && Kept(sensors, weather, r.time) &&
      r.sensor in sensors[r.time] && r.sensor.location == l &&
      r.people == PeopleAt(people, r.time, l) && r.weather == weather[r.time]
  {
    var init := order[..|order| - 1];
    var t := order[|order| - 1];
    var c := Column(init, people, sensors, weather, l);
    if i < |c| {
      ColumnSound(init, people, sensors, weather, l, i);
    } else {
      FiledSound(people, t, sensors[t], weather[t], l, i - |c|);
    }
  }

  /** Every snapshot of every kept minute of the iteration is filed under its own site. */
  lemma {:induction false} ColumnComplete(order: seq<Timestamp>, people: OccupancyTable, sensors: SensorTable, weather: WeatherTable, t: Timestamp, k: nat)
    requires t in order && Kept(sensors, weather, t) && k < |sensors[t]|
    ensures Record(people, t, sensors[t][k], weather[t]) in Column(order, people, sensors, weather, sensors[t][k].location)
  {
    var init := order[..|order| - 1];
    var l := sensors[t][k].location;
    if t == order[|order| - 1] {
      FiledComplete(people, t, sensors[t], weather[t], k);
    } else {
      ColumnComplete(init, people, sensors, weather, t, k);
    }
  }

  predicate TimesDistinct(c: seq<MergedRecord>)
  {
    forall i, j :: 0 <= i < j < |c| ==> c[i].time != c[j].time
  }

  /** When each minute lists one snapshot per site, a site's list holds each minute at most once. */
  lemma {:induction false} ColumnTimesDistinct(order: seq<Timestamp>, people: OccupancyTable, sensors: SensorTable, weather: WeatherTable, l: Location)
    requires forall i, j :: 0 <= i < j < |order| ==> order[i] != order[j]
    requires forall t :: t in sensors ==> UniqueLocations(sensors[t])
    ensures TimesDistinct(Column(order, people, sensors, weather, l))
  {
    if order != [] {
      var init := order[..|order| - 1];
      var t := order[|order| - 1];
      var c0 := Column(init, people, sensors, weather, l);
      var c := Column(order, people, sensors, weather, l);
      ColumnTimesDistinct(init, people, sensors, weather, l);
      if Kept(sensors, weather, t) {
        var f := Filed(people, t, sensors[t], weather[t], l);
        FiledAtMostOne(people, t, sensors[t], weather[t], l);
        assert c == c0 + f;
        forall i, j | 0 <= i < j < |c| ensures c[i].time != c[j].time {
          if j < |c0| {
            assert c[i] == c0[i] && c[j] == c0[j];
          } else {
            assert i < |c0|;
            ColumnSound(init, people, sensors, weather, l, i);
            FiledSound(people, t, sensors[t], weather[t], l, j - |c0|);
            assert c[i] == c0[i] && c[j] == f[j - |c0|];
            assert c[j].time == t;
            var q :| 0 <= q < |init| && init[q] == c[i].time;
            assert init[q] == order[q];
          }
        }
      }
    }
  }

  // ---------------------------------------------------------------------------

  /** `main` removes the dining room, the corridor and the staff room after the join. */
  method RemoveExcluded(data: Merged) returns (r: Merged)
    ensures r.Keys == data.Keys - Excluded
    ensures forall l :: l in r ==> r[l] == data[l]
  {
    r := data - {Jedilnica};
    r := r - {Hodnik};
    r := r - {Zbornica};
  }
}
